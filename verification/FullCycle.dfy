/**
 full_gc over the page table, the holes and the groups, with no mutator running: flip,
 root scan, marking, recycling and coalescing together free exactly what is not reachable
 from the roots and the bits left set, and leave as holes the longest runs of pages nothing
 reachable is on.
 */
module FullCycle {
  import opened Colours
  import opened Links
  import opened GroupList
  import opened Pages
  import opened PageTables
  import opened Layout
  import opened Heaps
  import opened WriteVectors
  import M = Marking

  // ---------------------------------------------------------------- reachable from the roots

  /** x is the header of an allocated object. */
  predicate Used(cs: Colourings, owner: M.Owners, x: int) { M.IsObject(cs, owner, x) && M.Col(cs, owner, x) != Green }

  /** C holds the allocated objects the roots name and what the words of its members name. */
  ghost predicate Connected(cs: Colourings, owner: M.Owners, refs: M.Refs, roots: set<int>, C: set<int>) {
    && (forall t | t in roots && Used(cs, owner, t) :: t in C)
    && (forall x, t | x in C && Used(cs, owner, x) && t in refs(x) && Used(cs, owner, t) :: t in C)
  }

  ghost predicate InEveryConnected(cs: Colourings, owner: M.Owners, refs: M.Refs, roots: set<int>, x: int) {
    forall C: set<int> | Connected(cs, owner, refs, roots, C) :: x in C
  }

  ghost predicate InUse(cs: Colourings, owner: M.Owners, refs: M.Refs, roots: set<int>, x: int) {
    Used(cs, owner, x) && InEveryConnected(cs, owner, refs, roots, x)
  }

  /** The colours a cycle should end with, before pages are given back. */
  ghost function Survivors(cs: Colourings, owner: M.Owners, refs: M.Refs, roots: set<int>,
                           marked: Colour): (r: Colourings)
    ensures |r| == |cs|
    ensures forall i | 0 <= i < |cs| :: r[i] == SurvivorsOf(cs, owner, refs, roots, marked, i)
  {
    seq(|cs|, i requires 0 <= i < |cs| => SurvivorsOf(cs, owner, refs, roots, marked, i))
  }

  ghost function SurvivorsOf(cs: Colourings, owner: M.Owners, refs: M.Refs, roots: set<int>, marked: Colour,
                             i: nat): map<int, Colour>
    requires i < |cs|
  {
    map x | x in cs[i] :: if InUse(cs, owner, refs, roots, x) then marked else Green
  }

  // ---------------------------------------------------------------- marking

  /** After the flip: every object is white or free. */
  ghost predicate AllWhite(cs: Colourings, unmarked: Colour) {
    forall i, x | 0 <= i < |cs| && x in cs[i] :: cs[i][x] == unmarked || cs[i][x] == Green
  }

  predicate InCycle(c: Colour, marked: Colour, unmarked: Colour) { c == unmarked || c == Gray || c == marked }

  /**
   Since the flip, when the colours were cs0: what has turned gray or black is in use from
   seeds, what the words of black objects name is not white any more, nor what done names.
   */
  ghost predicate Progress(cs0: Colourings, cs: Colourings, owner: M.Owners, refs: M.Refs, seeds: set<int>,
                           done: set<int>, marked: Colour, unmarked: Colour) {
    && |cs| == |cs0| && (forall i | 0 <= i < |cs| :: cs[i].Keys == cs0[i].Keys)
    && (forall x :: M.IsObject(cs, owner, x) <==> M.IsObject(cs0, owner, x))
    && (forall x | M.IsObject(cs, owner, x) ::
          if Used(cs0, owner, x) then InCycle(M.Col(cs, owner, x), marked, unmarked) else M.Col(cs, owner, x) == Green)
    && (forall x | Used(cs0, owner, x) && M.Col(cs, owner, x) != unmarked :: InUse(cs0, owner, refs, seeds, x))
    && (forall x, t | Used(cs0, owner, x) && M.Col(cs, owner, x) == marked && t in refs(x) && Used(cs0, owner, t) ::
          M.Col(cs, owner, t) != unmarked)
    && (forall t | t in done && Used(cs0, owner, t) :: M.Col(cs, owner, t) != unmarked)
  }

  lemma ProgressStart(cs: Colourings, owner: M.Owners, refs: M.Refs, seeds: set<int>, marked: Colour, unmarked: Colour)
    requires AllWhite(cs, unmarked) && marked != unmarked
    ensures Progress(cs, cs, owner, refs, seeds, {}, marked, unmarked)
  {
    forall x | M.IsObject(cs, owner, x)
      ensures M.Col(cs, owner, x) == unmarked || M.Col(cs, owner, x) == Green {
      assert x in cs[owner(x)];
    }
  }

  /** One of the seeds is traced. */
  lemma ProgressTrace(cs0: Colourings, cs: Colourings, cs': Colourings, owner: M.Owners, refs: M.Refs,
                      seeds: set<int>, done: set<int>, t: int, marked: Colour, unmarked: Colour)
    requires Progress(cs0, cs, owner, refs, seeds, done, marked, unmarked) && t in seeds
    requires M.Traced(cs, cs', owner, t, unmarked) && Generation(marked) && Generation(unmarked)
    ensures Progress(cs0, cs', owner, refs, seeds, done + {t}, marked, unmarked)
  {
    forall y ensures M.IsObject(cs', owner, y) <==> M.IsObject(cs, owner, y) {}
    forall y | M.IsObject(cs', owner, y)
      ensures M.Col(cs', owner, y) == if y == t && M.Col(cs, owner, y) == unmarked then Gray else M.Col(cs, owner, y) {}
    InUseNext(cs0, owner, refs, seeds);
    hide InUse, Used, M.Col;
  }

  lemma InUseIsClosed(cs0: Colourings, cs: Colourings, owner: M.Owners, refs: M.Refs, seeds: set<int>,
                      done: set<int>, marked: Colour, unmarked: Colour, x: int)
    requires Progress(cs0, cs, owner, refs, seeds, done, marked, unmarked) && M.Resolves(cs0, owner)
    requires Generation(unmarked) && M.Reachable(cs, owner, refs, unmarked, x) && M.IsObject(cs, owner, x)
    ensures InUse(cs0, owner, refs, seeds, x)
  {
    var C := set i, y | 0 <= i < |cs0| && y in cs0[i] && InUse(cs0, owner, refs, seeds, y) :: y;
    InUseNext(cs0, owner, refs, seeds);
    forall y | InUse(cs0, owner, refs, seeds, y) ensures y in C { UsedIs(cs0, owner, refs, seeds, y); }
    hide InUse;
    assert M.ClosedUnder(cs, owner, refs, unmarked, C);
  }

  /** scan_gray_set goes through. */
  lemma ProgressMarked(cs0: Colourings, cs: Colourings, cs': Colourings, owner: M.Owners, refs: M.Refs,
                       seeds: set<int>, done: set<int>, marked: Colour, unmarked: Colour)
    requires Progress(cs0, cs, owner, refs, seeds, done, marked, unmarked) && M.Resolves(cs0, owner)
    requires M.Marked(cs, cs', owner, refs, marked, unmarked)
    requires marked != unmarked && Generation(marked) && Generation(unmarked)
    ensures Progress(cs0, cs', owner, refs, seeds, done, marked, unmarked)
  {
    forall x | Used(cs0, owner, x) && M.Col(cs', owner, x) != unmarked ensures InUse(cs0, owner, refs, seeds, x) {
      if M.Col(cs', owner, x) != M.Col(cs, owner, x) {
        InUseIsClosed(cs0, cs, owner, refs, seeds, done, marked, unmarked, x);
      }
    }
    hide InUse;
  }

  /** With no gray object left and every seed done, black is exactly what is in use. */
  lemma ProgressEnds(cs0: Colourings, cs: Colourings, owner: M.Owners, refs: M.Refs, seeds: set<int>,
                     marked: Colour, unmarked: Colour, x: int)
    requires Progress(cs0, cs, owner, refs, seeds, seeds, marked, unmarked) && marked != unmarked
    requires forall y | M.IsObject(cs, owner, y) :: M.Col(cs, owner, y) != Gray
    requires M.IsObject(cs, owner, x)
    ensures M.Col(cs, owner, x) ==
            if InUse(cs0, owner, refs, seeds, x) then marked else if Used(cs0, owner, x) then unmarked else Green
  {
    var C := set i, y | 0 <= i < |cs0| && y in cs0[i] && Used(cs0, owner, y) && M.Col(cs, owner, y) != unmarked :: y;
    forall y | Used(cs0, owner, y) && M.Col(cs, owner, y) != unmarked ensures y in C {
      assert y in cs0[owner(y)];
    }
    assert Connected(cs0, owner, refs, seeds, C);
  }

  lemma MarkedSurvive(cs0: Colourings, cs: Colourings, owner: M.Owners, refs: M.Refs, seeds: set<int>,
                      marked: Colour, unmarked: Colour)
    requires Progress(cs0, cs, owner, refs, seeds, seeds, marked, unmarked) && M.Resolves(cs0, owner)
    requires marked != unmarked && Generation(marked) && Generation(unmarked)
    requires forall y | M.IsObject(cs, owner, y) :: M.Col(cs, owner, y) != Gray
    ensures |cs| == |cs0| && forall i | 0 <= i < |cs0| :: cs[i].Keys == cs0[i].Keys
    ensures RecycledAll(cs, unmarked) == Survivors(cs0, owner, refs, seeds, marked)
  {
    forall i: nat | i < |cs0| ensures Recycled(cs[i], unmarked) == SurvivorsOf(cs0, owner, refs, seeds, marked, i) {
      forall x | x in cs0[i]
        ensures x in cs[i] && Recycled(cs[i], unmarked)[x] == SurvivorsOf(cs0, owner, refs, seeds, marked, i)[x] {
        assert owner(x) == i && M.IsObject(cs0, owner, x) && x in cs[i].Keys;
        ProgressEnds(cs0, cs, owner, refs, seeds, marked, unmarked, x);
      }
      assert cs[i].Keys == cs0[i].Keys;
    }
  }

  lemma ProgressResolves(cs0: Colourings, cs: Colourings, owner: M.Owners, refs: M.Refs, seeds: set<int>,
                         done: set<int>, marked: Colour, unmarked: Colour)
    requires Progress(cs0, cs, owner, refs, seeds, done, marked, unmarked) && M.Resolves(cs0, owner)
    ensures M.Resolves(cs, owner)
  {
    forall i, x | 0 <= i < |cs| && x in cs[i] ensures owner(x) == i { assert x in cs0[i].Keys; }
  }

  method TraceSeed(gs: seq<Group>, t: int, owner: M.Owners, marked: Colour, unmarked: Colour,
                   ghost refs: M.Refs, ghost cs0: Colourings, ghost seeds: set<int>, ghost done: set<int>)
    requires M.GroupsOk(gs, marked, unmarked) && t in seeds
    requires Progress(cs0, ColoursOf(gs), owner, refs, seeds, done, marked, unmarked)
    modifies gs
    ensures M.GroupsOk(gs, marked, unmarked)
    ensures Progress(cs0, ColoursOf(gs), owner, refs, seeds, done + {t}, marked, unmarked)
  {
    M.GroupColours(gs, marked, unmarked);
    hide Good, Group.Valid, M.GroupsOk, M.Work, M.Next, ColoursOf, M.Traced, M.Shapes, Progress;
    ghost var cs := ColoursOf(gs);
    M.TraceAddress(gs, t, owner, marked, unmarked);
    ProgressTrace(cs0, cs, ColoursOf(gs), owner, refs, seeds, done, t, marked, unmarked);
  }

  /** What a cycle starts from: the roots, and the headers whose bits a late barrier has left set. */
  function Seeds(roots: seq<int>, words: seq<Word>): set<int> { Elements(roots) + MarkedHeaders(words) }

  /** scan_root_set: gray every white object that a root names. */
  method ScanRootSet(gs: seq<Group>, roots: seq<int>, owner: M.Owners, marked: Colour, unmarked: Colour,
                     ghost refs: M.Refs, ghost cs0: Colourings, ghost seeds: set<int>)
    requires M.GroupsOk(gs, marked, unmarked) && Elements(roots) <= seeds
    requires Progress(cs0, ColoursOf(gs), owner, refs, seeds, {}, marked, unmarked)
    modifies gs
    ensures M.GroupsOk(gs, marked, unmarked)
    ensures Progress(cs0, ColoursOf(gs), owner, refs, seeds, Elements(roots), marked, unmarked)
  {
    hide M.GroupsOk, ColoursOf, Progress;
    var k := 0;
    assert Elements(roots[..0]) == {};
    while k < |roots|
      invariant 0 <= k <= |roots| && M.GroupsOk(gs, marked, unmarked)
      invariant Progress(cs0, ColoursOf(gs), owner, refs, seeds, Elements(roots[..k]), marked, unmarked)
    {
      assert roots[k] in Elements(roots);
      TraceSeed(gs, roots[k], owner, marked, unmarked, refs, cs0, seeds, Elements(roots[..k]));
      assert roots[..k + 1] == roots[..k] + [roots[k]];
      assert Elements(roots[..k + 1]) == Elements(roots[..k]) + {roots[k]};
      k := k + 1;
    }
    assert roots[..k] == roots;
  }

  /** Where the sweep of the write vector stands, no mutator marking: found has been traced, and its bits cleared. */
  ghost predicate SweptTo(start: seq<Word>, words: seq<Word>, at: int, found: set<int>, markCount: nat) {
    Sweeping(start, words, {}, {}, at, found) && markCount == |found| && found <= MarkedHeaders(start)
  }

  lemma SweptOne(start: seq<Word>, words: seq<Word>, i: nat, b: nat, found: set<int>, markCount: nat)
    requires SweptTo(start, words, HeaderOf(i, b), found, markCount) && i < |words| && b < BITS_PER_LONG && words[i][b]
    ensures HeaderOf(i, b) in MarkedHeaders(start)
    ensures SweptTo(start, words[i := words[i][b := false]], HeaderOf(i, b + 1), found + {HeaderOf(i, b)},
                    markCount + 1)
  {
    BitRoundTrip(i, b, |words|);
    MarkedBit(words, i, b);
    ClearOne(words, i, b);
    SweepClear(start, words, {}, {}, HeaderOf(i, b), found, words[i := words[i][b := false]]);
  }

  lemma SweptNone(start: seq<Word>, words: seq<Word>, at: int, found: set<int>, markCount: nat, to: int)
    requires SweptTo(start, words, at, found, markCount) && at <= to && forall h | at <= h < to :: !Marked(words, h)
    ensures SweptTo(start, words, to, found, markCount)
  {
    SweepSkip(start, words, {}, {}, at, found, to);
  }

  /** scan_write_vector on the groups, no mutator running: every bit set is found, traced, cleared and counted. */
  method SweepVector(gs: seq<Group>, vector: WriteVector, owner: M.Owners, marked: Colour, unmarked: Colour,
                     ghost refs: M.Refs, ghost cs0: Colourings, ghost seeds: set<int>, ghost done: set<int>)
    returns (markCount: nat)
    requires M.GroupsOk(gs, marked, unmarked) && MarkedHeaders(vector.words[..]) <= seeds
    requires Progress(cs0, ColoursOf(gs), owner, refs, seeds, done, marked, unmarked)
    modifies gs, vector.words
    ensures M.GroupsOk(gs, marked, unmarked)
    ensures Progress(cs0, ColoursOf(gs), owner, refs, seeds, done + MarkedHeaders(old(vector.words[..])), marked,
                     unmarked)
    ensures markCount == |MarkedHeaders(old(vector.words[..]))| && MarkedHeaders(vector.words[..]) == {}
    ensures markCount == 0 ==> forall i | 0 <= i < |gs| :: gs[i].shape == old(gs[i].shape)
  {
    hide M.GroupsOk, ColoursOf, Progress, Sweeping, Marked;
    ghost var start := vector.words[..];
    ghost var found := {};
    markCount := 0;
    SweepStarts(start, {});
    assert done + {} == done;
    var index := 0;
    while index < vector.words.Length
      invariant 0 <= index <= vector.words.Length && M.GroupsOk(gs, marked, unmarked)
      invariant SweptTo(start, vector.words[..], HeaderOf(index, 0), found, markCount)
      invariant Progress(cs0, ColoursOf(gs), owner, refs, seeds, done + found, marked, unmarked)
      invariant markCount == 0 ==> forall i | 0 <= i < |gs| :: gs[i].shape == old(gs[i].shape)
    {
      if vector.words[index] != ZERO {
        markCount, found := SweepWord(gs, vector, index, markCount, owner, marked, unmarked, refs, cs0, seeds, done,
                                      start, found);
      } else {
        ZeroWordIsUnmarked(vector.words[..], index);
        SweptNone(start, vector.words[..], HeaderOf(index, 0), found, markCount, HeaderOf(index + 1, 0));
      }
      index := index + 1;
    }
    SweepMeaning(start, vector.words[..], {}, {}, found);
  }

  /** The inner loop: the 64 bits of one word. */
  method SweepWord(gs: seq<Group>, vector: WriteVector, index: nat, count1: nat, owner: M.Owners, marked: Colour,
                   unmarked: Colour, ghost refs: M.Refs, ghost cs0: Colourings, ghost seeds: set<int>,
                   ghost done: set<int>, ghost start: seq<Word>, ghost found1: set<int>)
    returns (markCount: nat, ghost found: set<int>)
    requires index < vector.words.Length && M.GroupsOk(gs, marked, unmarked) && MarkedHeaders(start) <= seeds
    requires SweptTo(start, vector.words[..], HeaderOf(index, 0), found1, count1)
    requires Progress(cs0, ColoursOf(gs), owner, refs, seeds, done + found1, marked, unmarked)
    modifies gs, vector.words
    ensures M.GroupsOk(gs, marked, unmarked)
    ensures SweptTo(start, vector.words[..], HeaderOf(index + 1, 0), found, markCount)
    ensures Progress(cs0, ColoursOf(gs), owner, refs, seeds, done + found, marked, unmarked)
    ensures markCount == 0 ==> count1 == 0 && forall i | 0 <= i < |gs| :: gs[i].shape == old(gs[i].shape)
  {
    hide M.GroupsOk, ColoursOf, Progress, SweptTo, Marked;
    markCount, found := count1, found1;
    var bit := 0;
    while bit < BITS_PER_LONG
      invariant 0 <= bit <= BITS_PER_LONG && M.GroupsOk(gs, marked, unmarked)
      invariant SweptTo(start, vector.words[..], HeaderOf(index, bit), found, markCount)
      invariant Progress(cs0, ColoursOf(gs), owner, refs, seeds, done + found, marked, unmarked)
      invariant markCount == 0 ==> count1 == 0 && forall i | 0 <= i < |gs| :: gs[i].shape == old(gs[i].shape)
    {
      if vector.words[index][bit] {
        var header := HeaderOf(index, bit);
        ghost var was := vector.words[..];
        SweptOne(start, was, index, bit, found, markCount);
        TraceSeed(gs, header, owner, marked, unmarked, refs, cs0, seeds, done + found);
        vector.words[index] := vector.words[index][bit := false];
        assert vector.words[..] == was[index := was[index][bit := false]];
        assert done + found + {header} == done + (found + {header});
        markCount, found := markCount + 1, found + {header};
      } else {
        ClearBitIsUnmarked(vector.words[..], index, bit);
        SweptNone(start, vector.words[..], HeaderOf(index, bit), found, markCount, HeaderOf(index, bit + 1));
      }
      bit := bit + 1;
    }
  }

  /** scan_gray_set, as part of a cycle. */
  method ScanGrays(gs: seq<Group>, owner: M.Owners, refs: M.Refs, marked: Colour, unmarked: Colour,
                   ghost cs0: Colourings, ghost seeds: set<int>, ghost done: set<int>)
    requires M.GroupsOk(gs, marked, unmarked) && M.Resolves(cs0, owner)
    requires Progress(cs0, ColoursOf(gs), owner, refs, seeds, done, marked, unmarked)
    modifies gs
    ensures M.GroupsOk(gs, marked, unmarked) && forall i | 0 <= i < |gs| :: gs[i].shape.grays == 0
    ensures Progress(cs0, ColoursOf(gs), owner, refs, seeds, done, marked, unmarked)
  {
    ghost var cs := ColoursOf(gs);
    M.GroupColours(gs, marked, unmarked);
    hide Good, Group.Valid, M.GroupsOk, M.Work, M.Next, M.Shapes, M.Marked, M.Resolves, ColoursOf, Progress;
    ProgressResolves(cs0, cs, owner, refs, seeds, done, marked, unmarked);
    M.ScanGraySet(gs, owner, refs, marked, unmarked);
    ProgressMarked(cs0, cs, ColoursOf(gs), owner, refs, seeds, done, marked, unmarked);
  }

  /**
   The loop of full_gc.  Its first sweep of the write vector finds the bits set before the
   cycle; with no mutator running the second finds none, and the loop ends.
   */
  method Drain(gs: seq<Group>, vector: WriteVector, owner: M.Owners, refs: M.Refs, marked: Colour, unmarked: Colour,
               ghost cs0: Colourings, ghost seeds: set<int>, ghost roots: set<int>)
    requires M.GroupsOk(gs, marked, unmarked) && M.Resolves(cs0, owner)
    requires seeds == roots + MarkedHeaders(vector.words[..])
    requires Progress(cs0, ColoursOf(gs), owner, refs, seeds, roots, marked, unmarked)
    modifies gs, vector.words
    ensures M.GroupsOk(gs, marked, unmarked) && forall i | 0 <= i < |gs| :: gs[i].shape.grays == 0
    ensures Progress(cs0, ColoursOf(gs), owner, refs, seeds, seeds, marked, unmarked)
    ensures MarkedHeaders(vector.words[..]) == {}
  {
    hide M.GroupsOk, M.Resolves, ColoursOf, Progress, MarkedHeaders;
    ghost var done := roots;
    var markCount := 1;
    while markCount > 0
      invariant M.GroupsOk(gs, marked, unmarked) && done + MarkedHeaders(vector.words[..]) == seeds
      invariant Progress(cs0, ColoursOf(gs), owner, refs, seeds, done, marked, unmarked)
      invariant markCount == 0 ==>
                  MarkedHeaders(vector.words[..]) == {} && forall i | 0 <= i < |gs| :: gs[i].shape.grays == 0
      decreases |MarkedHeaders(vector.words[..])|, markCount
    {
      ScanGrays(gs, owner, refs, marked, unmarked, cs0, seeds, done);
      markCount := SweepVector(gs, vector, owner, marked, unmarked, refs, cs0, seeds, done);
      done := seeds;
    }
  }

  /** The mark phase of full_gc: scan_root_set, then the loop. */
  method MarkFromRoots(gs: seq<Group>, roots: seq<int>, vector: WriteVector, owner: M.Owners, refs: M.Refs,
                       marked: Colour, unmarked: Colour)
    requires M.GroupsOk(gs, marked, unmarked) && M.Resolves(ColoursOf(gs), owner) && AllWhite(ColoursOf(gs), unmarked)
    modifies gs, vector.words
    ensures M.GroupsOk(gs, marked, unmarked) && forall i | 0 <= i < |gs| :: gs[i].shape.grays == 0
    ensures forall i | 0 <= i < |gs| :: ColoursOf(gs)[i].Keys == old(ColoursOf(gs))[i].Keys
    ensures RecycledAll(ColoursOf(gs), unmarked) ==
              Survivors(old(ColoursOf(gs)), owner, refs, Seeds(roots, old(vector.words[..])), marked)
    ensures MarkedHeaders(vector.words[..]) == {}
  {
    ghost var cs0, seeds := ColoursOf(gs), Seeds(roots, vector.words[..]);
    M.GroupColours(gs, marked, unmarked);
    ProgressStart(cs0, owner, refs, seeds, marked, unmarked);
    hide M.GroupsOk, M.Resolves, AllWhite, ColoursOf, Progress;
    ScanRootSet(gs, roots, owner, marked, unmarked, refs, cs0, seeds);
    Drain(gs, vector, owner, refs, marked, unmarked, cs0, seeds, Elements(roots));
    NoneGray(gs, owner, marked, unmarked);
    MarkedSurvive(cs0, ColoursOf(gs), owner, refs, seeds, marked, unmarked);
  }

  lemma NoneGray(gs: seq<Group>, owner: M.Owners, marked: Colour, unmarked: Colour)
    requires M.GroupsOk(gs, marked, unmarked) && forall i | 0 <= i < |gs| :: gs[i].shape.grays == 0
    ensures forall y | M.IsObject(ColoursOf(gs), owner, y) :: M.Col(ColoursOf(gs), owner, y) != Gray
  {
    hide Good, Group.Valid;
    var cs := ColoursOf(gs);
    forall y | M.IsObject(cs, owner, y) ensures M.Col(cs, owner, y) != Gray {
      M.NoGrayLeft(gs[owner(y)], marked, unmarked);
    }
  }

  // ---------------------------------------------------------------- the whole cycle

  lemma BlackOrFree(g: Group, marked: Colour, unmarked: Colour)
    requires g.Valid(marked, unmarked) && g.shape.grays == 0 && g.shape.whites == []
    ensures forall x | x in g.hdr :: Colouring(g.hdr)[x] == marked || Colouring(g.hdr)[x] == Green
  {
    forall x | x in g.hdr ensures g.hdr[x].colour == marked || g.hdr[x].colour == Green {
      ColourIsPlace(g.hdr, Cut(g.gray, g.black, g.free, g.last, g.white), g.shape, marked, unmarked, x);
    }
  }

  /** Between two cycles every object is black or free. */
  lemma AllBlackOrFree(heap: Heap)
    requires heap.GroupsValid() && heap.Quiet() && NoWhites(heap.Marks())
    ensures AllWhite(heap.Colours(), heap.marked)
  {
    hide Good, Group.Valid;
    forall i | 0 <= i < 20 ensures forall x | x in heap.groups[i].hdr ::
      heap.Colours()[i][x] == heap.marked || heap.Colours()[i][x] == Green {
      BlackOrFree(heap.groups[i], heap.marked, heap.unmarked);
    }
  }

  /** The group the page table gives for an address. */
  function OwnerIn(code: seq<int>): M.Owners {
    x => if 0 <= PageOf(x) < |code| then code[PageOf(x)] - MIN_GROUP_INDEX else -1
  }

  lemma OwnerResolves(code: seq<int>, base: seq<int>, cs: Colourings)
    requires Keys(code, base, cs)
    ensures |code| == |base| && |cs| == 20 && M.Resolves(cs, OwnerIn(code))
  {
    forall i, x | 0 <= i < |cs| && x in cs[i] ensures OwnerIn(code)(x) == i {
      var c := i + MIN_GROUP_INDEX;
      assert IsGroup(c) && Keyed(code, base, c, cs[c - MIN_GROUP_INDEX]);
      assert HeaderAt(code, base, c, x);
    }
  }

  /** What a cycle leaves: blocks with an object in use, in which what is in use is marked and the rest is free. */
  ghost predicate Collected(code0: seq<int>, base0: seq<int>, cs0: Colourings, refs: M.Refs, roots: set<int>,
                            marked: Colour,
                            code: seq<int>, base: seq<int>, cs: Colourings) {
    && |code0| == |base0| && |cs0| == 20
    && Coalesced(code0, base0, Survivors(cs0, OwnerIn(code0), refs, roots, marked), code, base, cs)
  }

  /**
   full_gc when no mutator takes a step.  roots are the words saved; bits that a late barrier
   has left set count as roots too, and none is set afterwards.
   */
  method FullGc(heap: Heap, roots: seq<int>, vector: WriteVector, refs: M.Refs)
    requires heap.Valid() && heap.Quiet() && NoWhites(heap.Marks()) && heap.table.flight == {}
    modifies heap, heap.groups, heap.table`emptyPages, heap.table`list
    modifies heap.table.code, heap.table.base, heap.table.count, heap.table.next, vector.words
    ensures heap.Valid() && heap.Quiet() && NoWhites(heap.Marks()) && heap.table.flight == {}
    ensures heap.marked == old(heap.unmarked) && heap.unmarked == old(heap.marked)
    ensures Collected(old(heap.table.code[..]), old(heap.table.base[..]), old(heap.Colours()), refs,
                      Seeds(roots, old(vector.words[..])), heap.marked,
                      heap.table.code[..], heap.table.base[..], heap.Colours())
    ensures var survivors := Survivors(old(heap.Colours()), OwnerIn(old(heap.table.code[..])), refs,
                                       Seeds(roots, old(vector.words[..])), heap.marked);
            forall p, n :: MaximalUnused(old(heap.table.code[..]), old(heap.table.base[..]), survivors, p, n)
              <==> p in heap.table.list && 0 <= p < heap.table.total && n == heap.table.count[p]
    ensures HolesAreMaximalRuns(heap.table.code[..], heap.table.count[..], Elements(heap.table.list))
    ensures MarkedHeaders(vector.words[..]) == {}
  {
    hide Good, Tiles, Listed, Group.Valid, PageTable.Valid, PageTable.Linked, Keys, Assigned, Coalesced, MaximalUnused;
    hide AllWhite, M.Resolves, Colouring, Unused, OwnerIn, Flips, Heap.GroupsValid, Survivors, RecycledAll, ColoursOf;
    hide MarksOf, Masked, HolesAreMaximalRuns, Elements;
    ghost var cs0 := heap.Colours();
    var owner := OwnerIn(heap.table.code[..]);
    AllBlackOrFree(heap);
    OwnerResolves(heap.table.code[..], heap.table.base[..], cs0);
    heap.Flip();
    MarkHeap(heap, roots, vector, owner, refs);
    NothingMasked(heap.table.code[..]);
    heap.RecycleAllGarbage();
    NothingMasked(heap.table.code[..]);
  }

  /** The mark phase leaves the heap in order. */
  method MarkHeap(heap: Heap, roots: seq<int>, vector: WriteVector, owner: M.Owners, refs: M.Refs)
    requires heap.Valid() && M.Resolves(heap.Colours(), owner) && AllWhite(heap.Colours(), heap.unmarked)
    modifies heap.groups, vector.words
    ensures heap.Valid() && heap.Quiet()
    ensures RecycledAll(heap.Colours(), heap.unmarked) ==
              Survivors(old(heap.Colours()), owner, refs, Seeds(roots, old(vector.words[..])), heap.marked)
    ensures MarkedHeaders(vector.words[..]) == {}
  {
    hide Good, Tiles, Listed, Group.Valid, PageTable.Valid, PageTable.Linked, Keys, Assigned, AllWhite, M.Resolves;
    hide Colouring;
    GroupsAreOk(heap);
    ghost var cs := heap.Colours();
    MarkFromRoots(heap.groups, roots, vector, owner, refs, heap.marked, heap.unmarked);
    RecolouredKeys(heap.table.code[..], heap.table.base[..], cs, heap.Colours());
  }

  lemma GroupsAreOk(heap: Heap)
    requires heap.GroupsValid()
    ensures M.GroupsOk(heap.groups, heap.marked, heap.unmarked)
  {
    assert heap.groups[0].Valid(heap.marked, heap.unmarked);
  }

  // ---------------------------------------------------------------- what that means

  /** Garbage is freed, all of it; what is in use stays, all of it. */
  lemma CollectedExactly(code0: seq<int>, base0: seq<int>, cs0: Colourings, refs: M.Refs, roots: set<int>,
                         marked: Colour,
                         code: seq<int>, base: seq<int>, cs: Colourings, x: int)
    requires Keys(code0, base0, cs0) && marked != Green
    requires Collected(code0, base0, cs0, refs, roots, marked, code, base, cs)
    ensures Used(cs, OwnerIn(code), x) <==> InUse(cs0, OwnerIn(code0), refs, roots, x)
    ensures M.IsObject(cs, OwnerIn(code), x) ==>
              OwnerIn(code)(x) == OwnerIn(code0)(x) && M.IsObject(cs0, OwnerIn(code0), x)
  {
    var owner0, owner := OwnerIn(code0), OwnerIn(code);
    var S := Survivors(cs0, owner0, refs, roots, marked);
    OwnerResolves(code0, base0, cs0);
    OwnerResolves(code, base, cs);
    RecolouredKeys(code0, base0, cs0, S);
    hide Keys, InUse, OwnerIn, Unused;
    if M.IsObject(cs, owner, x) {
      var i := owner(x);
      assert x in Reclaimed(code0, base0, S)[i] && x in cs0[i];
    }
    if InUse(cs0, owner0, refs, roots, x) {
      UsedIs(cs0, owner0, refs, roots, x);
      var i := owner0(x);
      assert x in S[i] && S[i][x] == marked;
      AllocatedStay(code0, base0, S, i, x);
      assert x in cs[i];
    }
  }

  lemma UsedIs(cs: Colourings, owner: M.Owners, refs: M.Refs, roots: set<int>, x: int)
    requires InUse(cs, owner, refs, roots, x)
    ensures M.IsObject(cs, owner, x)
  {}

  /** More roots, more in use. */
  lemma InUseMore(cs: Colourings, owner: M.Owners, refs: M.Refs, roots: set<int>, seeds: set<int>, x: int)
    requires (forall t | t in roots :: t in seeds) && InUse(cs, owner, refs, roots, x)
    ensures InUse(cs, owner, refs, seeds, x)
  {
    forall C: set<int> | Connected(cs, owner, refs, seeds, C) ensures x in C {
      assert Connected(cs, owner, refs, roots, C);
    }
    assert InEveryConnected(cs, owner, refs, seeds, x);
  }

  /** After a cycle that has kept what seeds lead to, the same is in use from fewer roots as before. */
  lemma SameInUse(cs0: Colourings, owner0: M.Owners, cs1: Colourings, owner1: M.Owners, refs: M.Refs, seeds: set<int>,
                  roots: set<int>, x: int)
    requires forall y :: Used(cs1, owner1, y) <==> InUse(cs0, owner0, refs, seeds, y)
    requires forall t | t in roots :: t in seeds
    ensures InUse(cs1, owner1, refs, roots, x) <==> InUse(cs0, owner0, refs, roots, x)
  {
    if InUse(cs0, owner0, refs, roots, x) {
      forall C: set<int> | Connected(cs1, owner1, refs, roots, C) ensures x in C {
        KeptConnected(cs0, owner0, cs1, owner1, refs, seeds, roots, C);
        assert InEveryConnected(cs0, owner0, refs, roots, x);
      }
      InUseMore(cs0, owner0, refs, roots, seeds, x);
      assert InEveryConnected(cs1, owner1, refs, roots, x);
    }
    if InUse(cs1, owner1, refs, roots, x) {
      forall C: set<int> | Connected(cs0, owner0, refs, roots, C) ensures x in C {
        assert Connected(cs1, owner1, refs, roots, C);
      }
      assert InUse(cs0, owner0, refs, seeds, x);
      assert InEveryConnected(cs0, owner0, refs, roots, x);
    }
  }

  lemma KeptConnected(cs0: Colourings, owner0: M.Owners, cs1: Colourings, owner1: M.Owners, refs: M.Refs,
                      seeds: set<int>, roots: set<int>, C: set<int>)
    requires forall y :: Used(cs1, owner1, y) <==> InUse(cs0, owner0, refs, seeds, y)
    requires (forall t | t in roots :: t in seeds) && Connected(cs1, owner1, refs, roots, C)
    ensures Connected(cs0, owner0, refs, roots, set y | y in C && InUse(cs0, owner0, refs, roots, y))
  {
    InUseNext(cs0, owner0, refs, roots);
    forall y | InUse(cs0, owner0, refs, roots, y) ensures Used(cs1, owner1, y) {
      InUseMore(cs0, owner0, refs, roots, seeds, y);
    }
    hide Used, InUse;
  }

  /** Roots are in use, and so is what an object in use names. */
  lemma InUseNext(cs: Colourings, owner: M.Owners, refs: M.Refs, roots: set<int>)
    ensures forall t | t in roots && Used(cs, owner, t) :: InUse(cs, owner, refs, roots, t)
    ensures forall x, t | InUse(cs, owner, refs, roots, x) && t in refs(x) && Used(cs, owner, t) ::
              InUse(cs, owner, refs, roots, t)
  {
    forall t | t in roots && Used(cs, owner, t) ensures InUse(cs, owner, refs, roots, t) {
      assert InEveryConnected(cs, owner, refs, roots, t);
    }
    forall x, t | InUse(cs, owner, refs, roots, x) && t in refs(x) && Used(cs, owner, t)
      ensures InUse(cs, owner, refs, roots, t) {
      forall C: set<int> | Connected(cs, owner, refs, roots, C) ensures t in C { assert x in C; }
      assert InEveryConnected(cs, owner, refs, roots, t);
    }
  }

  // ---------------------------------------------------------------- two cycles in a row

  /** What is green in S is green in T. */
  ghost predicate Greener(S: Colourings, T: Colourings) {
    && |S| == |T| == 20 && (forall i | 0 <= i < 20 :: S[i].Keys == T[i].Keys)
    && forall i, x | 0 <= i < 20 && x in S[i] && S[i][x] == Green :: T[i][x] == Green
  }

  lemma UnusedGreener(code: seq<int>, base: seq<int>, S: Colourings, T: Colourings, p: int)
    requires |code| == |base| && Greener(S, T) && 0 <= p < |code| && Unused(code, base, S, p)
    ensures Unused(code, base, T, p)
  {
    if IsGroup(code[p]) {
      var i := code[p] - MIN_GROUP_INDEX;
      forall a | a in S[i] && S[i][a] == Green ensures a in T[i] && T[i][a] == Green { assert a in T[i].Keys; }
    }
  }

  lemma SurvivorsGreener(cs: Colourings, owner: M.Owners, refs: M.Refs, seeds: set<int>, roots: set<int>, m1: Colour,
                         m2: Colour)
    requires (forall t | t in roots :: t in seeds) && m1 != Green && |cs| == 20
    ensures Greener(Survivors(cs, owner, refs, seeds, m1), Survivors(cs, owner, refs, roots, m2))
  {
    forall x | InUse(cs, owner, refs, roots, x) ensures InUse(cs, owner, refs, seeds, x) {
      InUseMore(cs, owner, refs, roots, seeds, x);
    }
    hide InUse;
  }

  /** The colours T of the headers on the pages that S leaves. */
  function Left(code: seq<int>, base: seq<int>, S: Colourings, T: Colourings): (r: Colourings)
    requires |code| == |base| && |S| == |T| == 20
    ensures |r| == 20 && forall i | 0 <= i < 20 :: r[i] == LeftFrom(code, base, S, T, i)
  {
    seq(20, i requires 0 <= i < 20 => LeftFrom(code, base, S, T, i))
  }

  function LeftFrom(code: seq<int>, base: seq<int>, S: Colourings, T: Colourings, i: nat): map<int, Colour>
    requires |code| == |base| && |S| == |T| == 20 && i < 20
  {
    map a | a in T[i] && StaysAt(code, base, S, PageOf(a)) :: T[i][a]
  }

  /** What the second cycle finds in use is what the first one kept for the same roots. */
  lemma SecondSurvivors(code0: seq<int>, base0: seq<int>, cs0: Colourings, refs: M.Refs, seeds: set<int>,
                        roots: set<int>, m1: Colour, m2: Colour,
                        code1: seq<int>, base1: seq<int>, cs1: Colourings)
    requires Keys(code0, base0, cs0) && m1 != Green && forall t | t in roots :: t in seeds
    requires Collected(code0, base0, cs0, refs, seeds, m1, code1, base1, cs1)
    ensures Survivors(cs1, OwnerIn(code1), refs, roots, m2) ==
            Left(code0, base0, Survivors(cs0, OwnerIn(code0), refs, seeds, m1),
                 Survivors(cs0, OwnerIn(code0), refs, roots, m2))
  {
    var owner0, owner1 := OwnerIn(code0), OwnerIn(code1);
    var S, T := Survivors(cs0, owner0, refs, seeds, m1), Survivors(cs0, owner0, refs, roots, m2);
    forall x ensures InUse(cs1, owner1, refs, roots, x) <==> InUse(cs0, owner0, refs, roots, x) {
      forall y { CollectedExactly(code0, base0, cs0, refs, seeds, m1, code1, base1, cs1, y); }
      SameInUse(cs0, owner0, cs1, owner1, refs, seeds, roots, x);
    }
    hide Keys, InUse, OwnerIn, Unused;
    forall i: nat | i < 20 ensures SurvivorsOf(cs1, owner1, refs, roots, m2, i) == LeftFrom(code0, base0, S, T, i) {
      assert cs1[i] == ReclaimedFrom(code0, base0, S, i);
    }
    assert |cs1| == 20;
    var L, R := Survivors(cs1, owner1, refs, roots, m2), Left(code0, base0, S, T);
    assert forall i | 0 <= i < 20 :: L[i] == R[i];
  }

  /** Every header of a block that stays is left. */
  lemma BlockIsLeft(code0: seq<int>, base0: seq<int>, S: Colourings, T: Colourings, p: int)
    requires Keys(code0, base0, S) && Greener(S, T) && 0 <= p < |code0| && IsGroup(code0[p])
    requires !Unused(code0, base0, S, p)
    ensures AllGreen(Left(code0, base0, S, T)[code0[p] - MIN_GROUP_INDEX], base0[p], code0[p]) <==>
            AllGreen(T[code0[p] - MIN_GROUP_INDEX], base0[p], code0[p])
  {
    var c := code0[p];
    var b, i := base0[p], c - MIN_GROUP_INDEX;
    assert OwnedPage(code0, base0, p);
    HeadersOnFirstPage(b, c);
    forall a | a in HeadersOn(b, c) ensures a in T[i] && a in LeftFrom(code0, base0, S, T, i) {
      assert HeaderAt(code0, base0, c, a) && Keyed(code0, base0, c, S[c - MIN_GROUP_INDEX]);
      assert a in T[i].Keys;
    }
  }

  /** A page is unused by what is left exactly when it was unused by T at first. */
  lemma UnusedByLeft(code0: seq<int>, base0: seq<int>, S: Colourings, T: Colourings, code1: seq<int>, base1: seq<int>,
                     cs1: Colourings, p: int)
    requires Keys(code0, base0, S) && Assigned(code0) && Greener(S, T)
    requires Coalesced(code0, base0, S, code1, base1, cs1) && 0 <= p < |code0|
    ensures Unused(code1, base1, Left(code0, base0, S, T), p) <==> Unused(code0, base0, T, p)
  {
    if Unused(code0, base0, S, p) {
      UnusedGreener(code0, base0, S, T, p);
    } else {
      BlockIsLeft(code0, base0, S, T, p);
    }
  }

  lemma LeftReclaimed(code0: seq<int>, base0: seq<int>, S: Colourings, T: Colourings, code1: seq<int>,
                      base1: seq<int>)
    requires |code0| == |base0| == |code1| == |base1| && |S| == |T| == 20
    requires forall p | 0 <= p < |code0| ::
               && (Unused(code1, base1, Left(code0, base0, S, T), p) <==> Unused(code0, base0, T, p))
               && (Unused(code0, base0, S, p) ==> Unused(code0, base0, T, p))
    ensures Reclaimed(code1, base1, Left(code0, base0, S, T)) == Reclaimed(code0, base0, T)
  {
    hide Unused;
    var U := Left(code0, base0, S, T);
    forall i: nat | i < 20 ensures ReclaimedFrom(code1, base1, U, i) == ReclaimedFrom(code0, base0, T, i) {
      assert U[i] == LeftFrom(code0, base0, S, T, i);
    }
  }

  /** Two cycles, the second with fewer roots, leave what one with those would have left. */
  lemma SecondPages(code0: seq<int>, base0: seq<int>, S: Colourings, T: Colourings, code1: seq<int>, base1: seq<int>,
                    cs1: Colourings,
                    code2: seq<int>, base2: seq<int>, cs2: Colourings)
    requires Keys(code0, base0, S) && Assigned(code0) && Greener(S, T)
    requires Coalesced(code0, base0, S, code1, base1, cs1)
    requires Coalesced(code1, base1, Left(code0, base0, S, T), code2, base2, cs2)
    ensures Coalesced(code0, base0, T, code2, base2, cs2)
  {
    var U := Left(code0, base0, S, T);
    forall p | 0 <= p < |code0|
      ensures Unused(code1, base1, U, p) <==> Unused(code0, base0, T, p)
      ensures Unused(code0, base0, S, p) ==> Unused(code0, base0, T, p) {
      UnusedByLeft(code0, base0, S, T, code1, base1, cs1, p);
      if Unused(code0, base0, S, p) { UnusedGreener(code0, base0, S, T, p); }
    }
    LeftReclaimed(code0, base0, S, T, code1, base1);
    hide Unused, Greener, Keys, Reclaimed, Left;
  }

  /**
   A second cycle whose roots are among those of the first: together they do what the second
   would have done alone, so what only the first one's bits kept is gone.
   */
  lemma SecondCycle(code0: seq<int>, base0: seq<int>, cs0: Colourings, refs: M.Refs, seeds: set<int>, roots: set<int>,
                    m1: Colour, m2: Colour,
                    code1: seq<int>, base1: seq<int>, cs1: Colourings, code2: seq<int>, base2: seq<int>,
                    cs2: Colourings)
    requires Keys(code0, base0, cs0) && Assigned(code0) && m1 != Green && forall t | t in roots :: t in seeds
    requires Collected(code0, base0, cs0, refs, seeds, m1, code1, base1, cs1)
    requires Collected(code1, base1, cs1, refs, roots, m2, code2, base2, cs2)
    ensures Collected(code0, base0, cs0, refs, roots, m2, code2, base2, cs2)
  {
    var owner0 := OwnerIn(code0);
    var S, T := Survivors(cs0, owner0, refs, seeds, m1), Survivors(cs0, owner0, refs, roots, m2);
    SurvivorsGreener(cs0, owner0, refs, seeds, roots, m1, m2);
    SecondSurvivors(code0, base0, cs0, refs, seeds, roots, m1, m2, code1, base1, cs1);
    RecolouredKeys(code0, base0, cs0, S);
    hide Survivors, InUse, OwnerIn;
    SecondPages(code0, base0, S, T, code1, base1, cs1, code2, base2, cs2);
  }

  /** A second cycle with the same roots changes no page. */
  lemma SecondCycleKeepsPages(code0: seq<int>, base0: seq<int>, cs0: Colourings, refs: M.Refs, roots: set<int>,
                              m1: Colour, m2: Colour,
                              code1: seq<int>, base1: seq<int>, cs1: Colourings, code2: seq<int>, base2: seq<int>,
                              cs2: Colourings)
    requires Keys(code0, base0, cs0) && Assigned(code0) && m1 != Green && m2 != Green
    requires Collected(code0, base0, cs0, refs, roots, m1, code1, base1, cs1)
    requires Collected(code1, base1, cs1, refs, roots, m2, code2, base2, cs2)
    ensures code2 == code1
  {
    var owner0 := OwnerIn(code0);
    var S, T := Survivors(cs0, owner0, refs, roots, m1), Survivors(cs0, owner0, refs, roots, m2);
    SecondCycle(code0, base0, cs0, refs, roots, roots, m1, m2, code1, base1, cs1, code2, base2, cs2);
    SurvivorsGreener(cs0, owner0, refs, roots, roots, m1, m2);
    SurvivorsGreener(cs0, owner0, refs, roots, roots, m2, m1);
    hide Survivors, InUse, OwnerIn;
    forall p | 0 <= p < |code0| ensures Unused(code0, base0, S, p) <==> Unused(code0, base0, T, p) {
      if Unused(code0, base0, S, p) { UnusedGreener(code0, base0, S, T, p); }
      if Unused(code0, base0, T, p) { UnusedGreener(code0, base0, T, S, p); }
    }
  }

  /**
   The body of the collector's loop, two cycles in a row.  Whatever bits were left set
   before, what is left in the end is exactly what roots and words lead to, and the colour
   codes are back where they were.
   */
  method CollectTwice(heap: Heap, roots: seq<int>, vector: WriteVector, refs: M.Refs)
    requires heap.Valid() && heap.Quiet() && NoWhites(heap.Marks()) && heap.table.flight == {}
    modifies heap, heap.groups, heap.table`emptyPages, heap.table`list
    modifies heap.table.code, heap.table.base, heap.table.count, heap.table.next, vector.words
    ensures heap.Valid() && heap.Quiet() && NoWhites(heap.Marks()) && heap.table.flight == {}
    ensures heap.marked == old(heap.marked) && heap.unmarked == old(heap.unmarked)
    ensures Collected(old(heap.table.code[..]), old(heap.table.base[..]), old(heap.Colours()), refs, Elements(roots),
                      heap.marked, heap.table.code[..], heap.table.base[..], heap.Colours())
    ensures HolesAreMaximalRuns(heap.table.code[..], heap.table.count[..], Elements(heap.table.list))
    ensures MarkedHeaders(vector.words[..]) == {}
  {
    hide Good, Tiles, Listed, Group.Valid, PageTable.Valid, PageTable.Linked, Keys, Assigned, MaximalUnused, Unused;
    hide HolesAreMaximalRuns, Elements;
    hide Heap.GroupsValid, Survivors, ColoursOf, MarksOf, Collected;
    ghost var code0, base0, cs0 := heap.table.code[..], heap.table.base[..], heap.Colours();
    NotGreen(heap);
    ghost var seeds := Seeds(roots, vector.words[..]);
    FullGc(heap, roots, vector, refs);
    ghost var code1, base1, cs1 := heap.table.code[..], heap.table.base[..], heap.Colours();
    assert Seeds(roots, vector.words[..]) == Elements(roots);
    FullGc(heap, roots, vector, refs);
    SecondCycle(code0, base0, cs0, refs, seeds, Elements(roots), old(heap.unmarked), old(heap.marked), code1, base1,
                cs1, heap.table.code[..], heap.table.base[..], heap.Colours());
  }

  lemma NotGreen(heap: Heap)
    requires heap.GroupsValid()
    ensures heap.marked != Green && heap.unmarked != Green
  {
    assert heap.groups[0].Valid(heap.marked, heap.unmarked);
  }

  // ---------------------------------------------------------------- an allocation that finds no memory

  /** Every block of group c that holds an object in use is full of them. */
  predicate Full(code: seq<int>, base: seq<int>, survivors: Colourings, c: int)
    requires |code| == |base| && |survivors| == 20 && IsGroup(c)
  {
    var i := c - MIN_GROUP_INDEX;
    forall a | a in survivors[i] && StaysAt(code, base, survivors, PageOf(a)) :: survivors[i][a] != Green
  }

  /** There are no n consecutive pages without an object in use. */
  ghost predicate Packed(code: seq<int>, base: seq<int>, survivors: Colourings, n: int)
    requires |code| == |base| && |survivors| == 20
  {
    !exists p :: UnusedRun(code, base, survivors, p, n)
  }

  predicate AllUsed(colour: map<int, Colour>) { forall a | a in colour :: colour[a] != Green }

  lemma NoneGreen(g: Group, marked: Colour, unmarked: Colour)
    requires g.Valid(marked, unmarked)
    ensures g.free == NULL <==> AllUsed(Colouring(g.hdr))
  {
    if g.free == NULL {
      NoFree(g, marked, unmarked);
      forall a | a in g.hdr ensures g.hdr[a].colour != Green {
        ColourIsPlace(g.hdr, Cut(g.gray, g.black, g.free, g.last, g.white), g.shape, marked, unmarked, a);
      }
    } else {
      FreeIsGreen(g, marked, unmarked);
    }
  }

  lemma FullIs(code: seq<int>, base: seq<int>, survivors: Colourings, c: int)
    requires |code| == |base| && |survivors| == 20 && IsGroup(c)
    ensures Full(code, base, survivors, c) <==>
            AllUsed(ReclaimedFrom(code, base, survivors, c - MIN_GROUP_INDEX))
  {
    var i := c - MIN_GROUP_INDEX;
    var left := ReclaimedFrom(code, base, survivors, i);
    if AllUsed(left) {
      forall a | a in survivors[i] && StaysAt(code, base, survivors, PageOf(a)) ensures survivors[i][a] != Green {
        assert a in left;
      }
    }
  }

  /** What two cycles leave, as the second attempt finds it. */
  lemma SecondAttempt(code0: seq<int>, base0: seq<int>, cs0: Colourings, refs: M.Refs, roots: set<int>, marked: Colour,
                      code: seq<int>, base: seq<int>, cs: Colourings, count: seq<int>, list: seq<int>, c: int)
    requires IsGroup(c) && Collected(code0, base0, cs0, refs, roots, marked, code, base, cs)
    requires Tiles(code, count, Elements(list), {}) && HolesAreMaximalRuns(code, count, Elements(list))
    ensures var S := Survivors(cs0, OwnerIn(code0), refs, roots, marked);
            && |cs| == 20
            && (Full(code0, base0, S, c) <==> AllUsed(cs[c - MIN_GROUP_INDEX]))
            && (Packed(code0, base0, S, PagesPerBlock(c)) <==>
                  forall k | 0 <= k < |list| :: Size(count, list[k]) < PagesPerBlock(c))
  {
    var S := Survivors(cs0, OwnerIn(code0), refs, roots, marked);
    var n := PagesPerBlock(c);
    BlockIsFull(c);
    FullIs(code0, base0, S, c);
    hide Survivors, OwnerIn, Unused, HolesAreMaximalRuns, Full, AllUsed;
    FitsIffRunExists(code, count, Elements(list), n);
    assert forall p :: EmptyRun(code, p, n) <==> UnusedRun(code0, base0, S, p, n);
  }

  /** There is room for one more object of group c, when only the objects in use are left. */
  ghost predicate RoomFor(code: seq<int>, base: seq<int>, cs: Colourings, refs: M.Refs, roots: set<int>, marked: Colour,
                          c: int)
    requires |code| == |base| && |cs| == 20 && IsGroup(c)
  {
    var survivors := Survivors(cs, OwnerIn(code), refs, roots, marked);
    !Full(code, base, survivors, c) || !Packed(code, base, survivors, PagesPerBlock(c))
  }

  /** No object of group c is free, and no hole is long enough for a block. */
  ghost predicate NoMemory(heap: Heap, c: int)
    requires |heap.groups| == 20 && IsGroup(c)
    reads heap, heap.table, heap.table.count, set g | g in heap.groups
  {
    && heap.groups[c - MIN_GROUP_INDEX].free == NULL
    && forall k | 0 <= k < |heap.table.list| :: Size(heap.table.count[..], heap.table.list[k]) < PagesPerBlock(c)
  }

  lemma NoRoomLeft(heap: Heap, code0: seq<int>, base0: seq<int>, cs0: Colourings, refs: M.Refs, roots: set<int>, c: int)
    requires heap.Valid() && heap.table.flight == {} && IsGroup(c) && |code0| == |base0| && |cs0| == 20
    requires Collected(code0, base0, cs0, refs, roots, heap.marked, heap.table.code[..], heap.table.base[..],
                       heap.Colours())
    requires HolesAreMaximalRuns(heap.table.code[..], heap.table.count[..], Elements(heap.table.list))
    ensures |heap.groups| == 20
    ensures RoomFor(code0, base0, cs0, refs, roots, heap.marked, c) <==> !NoMemory(heap, c)
  {
    hide Good, Tiles, Listed, Group.Valid, Keys, Assigned, Collected, HolesAreMaximalRuns, Elements, Full, Packed;
    hide Survivors, Colouring, AllUsed, MarksOf;
    var group := heap.groups[c - MIN_GROUP_INDEX];
    NoneGreen(group, heap.marked, heap.unmarked);
    SecondAttempt(code0, base0, cs0, refs, roots, heap.marked, heap.table.code[..], heap.table.base[..],
                  heap.Colours(), heap.table.count[..], heap.table.list, c);
  }

  /**
   An attempt has turned new_ from green, or from nothing, into a marked object, and changed
   no other; if it committed a block the other objects of the block are free.
   */
  ghost predicate Given(before: Colourings, heap: Heap, c: int, class_: int, new_: int, block: int)
    requires IsGroup(c)
    reads heap, set g | g in heap.groups
  {
    && |before| == |heap.groups| == 20
    && NewObject(before, heap.Colours(), c - MIN_GROUP_INDEX, new_, heap.marked)
    && Served(before, heap.Colours(), block, c, new_, heap.marked)
    && new_ in heap.groups[c - MIN_GROUP_INDEX].hdr && heap.groups[c - MIN_GROUP_INDEX].hdr[new_].class_ == class_
  }

  /** One attempt to allocate. */
  method Attempt(heap: Heap, c: int, class_: int) returns (new_: int, ghost block: int)
    requires heap.Valid() && IsGroup(c)
    modifies heap.groups[c - MIN_GROUP_INDEX], heap.table`emptyPages, heap.table`list, heap.table`flight
    modifies heap.table.code, heap.table.base, heap.table.count, heap.table.next
    ensures heap.Valid() && heap.table.flight == old(heap.table.flight) && heap.Marks() == old(heap.Marks())
    ensures new_ == NULL <==> old(NoMemory(heap, c))
    ensures new_ == NULL ==>
              && heap.table.code[..] == old(heap.table.code[..]) && heap.table.base[..] == old(heap.table.base[..])
              && heap.Colours() == old(heap.Colours())
    ensures new_ != NULL ==> Given(old(heap.Colours()), heap, c, class_, new_, block)
  {
    assert |heap.groups| == 20;
    hide Good, Tiles, Listed, Group.Valid, PageTable.Valid, PageTable.Linked, Keys, Assigned, ColoursOf, MarksOf;
    hide Heap.GroupsValid, Served, NewObject;
    new_, block := heap.Allocate(c, class_);
  }

  /** What was in use before an attempt is in use after it, and is not what the attempt gives. */
  lemma UsedStays(code1: seq<int>, base1: seq<int>, cs1: Colourings, code2: seq<int>, base2: seq<int>,
                  cs2: Colourings, i: nat, new_: int, marked: Colour, x: int)
    requires Keys(code1, base1, cs1) && Keys(code2, base2, cs2) && i < 20
    requires NewObject(cs1, cs2, i, new_, marked) && Used(cs1, OwnerIn(code1), x)
    ensures Used(cs2, OwnerIn(code2), x) && x != new_
  {
    OwnerResolves(code1, base1, cs1);
    OwnerResolves(code2, base2, cs2);
    var j := OwnerIn(code1)(x);
    hide OwnerIn, Keys;
    assert x in cs1[j] && cs1[j][x] != Green;
    if j != i { assert x in cs2[j]; }
  }

  /** Everything in use in cs0 is still allocated in the heap, and is not new_. */
  ghost predicate KeepsInUse(code0: seq<int>, cs0: Colourings, refs: M.Refs, roots: set<int>, heap: Heap, new_: int)
    reads heap, heap.table, heap.table.code, set g | g in heap.groups
  {
    forall x | InUse(cs0, OwnerIn(code0), refs, roots, x) ::
      Used(heap.Colours(), OwnerIn(heap.table.code[..]), x) && (new_ != NULL ==> x != new_)
  }

  lemma GivenKeepsInUse(code0: seq<int>, base0: seq<int>, cs0: Colourings, refs: M.Refs, roots: set<int>,
                        code1: seq<int>, base1: seq<int>, cs1: Colourings, heap: Heap, c: int, class_: int, new_: int,
                        block: int)
    requires forall x | InUse(cs0, OwnerIn(code0), refs, roots, x) :: Used(cs1, OwnerIn(code1), x)
    requires Keys(code1, base1, cs1) && heap.Valid() && IsGroup(c)
    requires if new_ == NULL then heap.table.code[..] == code1 && heap.Colours() == cs1
             else Given(cs1, heap, c, class_, new_, block)
    ensures KeepsInUse(code0, cs0, refs, roots, heap, new_)
  {
    hide InUse, OwnerIn, Used, NewObject, Keys, Good, Group.Valid, PageTable.Valid, Assigned;
    forall x | InUse(cs0, OwnerIn(code0), refs, roots, x)
      ensures Used(heap.Colours(), OwnerIn(heap.table.code[..]), x) && (new_ != NULL ==> x != new_) {
      if new_ != NULL {
        UsedStays(code1, base1, cs1, heap.table.code[..], heap.table.base[..], heap.Colours(), c - MIN_GROUP_INDEX,
                  new_, heap.marked, x);
      }
    }
  }

  /** The wait, and the second attempt, which finds the colours then. */
  method CollectAndRetry(heap: Heap, c: int, class_: int, roots: seq<int>, vector: WriteVector, refs: M.Refs)
    returns (new_: int, ghost block: int, ghost then_: Colourings)
    requires heap.Valid() && heap.Quiet() && NoWhites(heap.Marks()) && heap.table.flight == {} && IsGroup(c)
    modifies heap, heap.groups, heap.table`emptyPages, heap.table`list, heap.table`flight
    modifies heap.table.code, heap.table.base, heap.table.count, heap.table.next, vector.words
    ensures heap.Valid() && heap.Quiet() && NoWhites(heap.Marks()) && heap.table.flight == {}
    ensures heap.marked == old(heap.marked) && heap.unmarked == old(heap.unmarked)
    ensures new_ == NULL <==> !RoomFor(old(heap.table.code[..]), old(heap.table.base[..]), old(heap.Colours()), refs,
                                       Elements(roots), heap.marked, c)
    ensures new_ != NULL ==> Given(then_, heap, c, class_, new_, block)
    ensures exists code, base :: Collected(old(heap.table.code[..]), old(heap.table.base[..]), old(heap.Colours()),
                                           refs, Elements(roots), heap.marked, code, base, then_)
    ensures KeepsInUse(old(heap.table.code[..]), old(heap.Colours()), refs, Elements(roots), heap, new_)
  {
    ghost var code0, base0, cs0 := heap.table.code[..], heap.table.base[..], heap.Colours();
    assert |code0| == |base0| && |cs0| == 20 && Keys(code0, base0, cs0);
    NotGreen(heap);
    hide Good, Tiles, Listed, Group.Valid, PageTable.Valid, PageTable.Linked, Keys, Assigned, MaximalUnused, Unused;
    hide Heap.GroupsValid, Survivors, ColoursOf, MarksOf, Collected, HolesAreMaximalRuns, Elements, RoomFor, NoMemory;
    hide NoGrays, NoWhites, Given, KeepsInUse, InUse;
    CollectTwice(heap, roots, vector, refs);
    NoRoomLeft(heap, code0, base0, cs0, refs, Elements(roots), c);
    ghost var code1, base1 := heap.table.code[..], heap.table.base[..];
    then_ := heap.Colours();
    assert Keys(code1, base1, then_);
    new_, block := Attempt(heap, c, class_);
    forall x | InUse(cs0, OwnerIn(code0), refs, Elements(roots), x) ensures Used(then_, OwnerIn(code1), x) {
      CollectedExactly(code0, base0, cs0, refs, Elements(roots), heap.marked, code1, base1, then_, x);
    }
    GivenKeepsInUse(code0, base0, cs0, refs, Elements(roots), code1, base1, then_, heap, c, class_, new_, block);
  }

  /**
   RTallocate when nobody else runs: if there is no memory it waits until the collector has
   gone through two cycles, and tries again.  It gives up exactly when it has found no memory
   the first time and the objects in use leave no room in the group nor for another block.
   The object given was free, or did not exist, when the attempt that gave it began; nothing
   else changed in that attempt; nothing that was in use is given, or has gone.
   */
  method AllocateWaiting(heap: Heap, c: int, class_: int, roots: seq<int>, vector: WriteVector, refs: M.Refs)
    returns (new_: int, ghost block: int, ghost then_: Colourings)
    requires heap.Valid() && heap.Quiet() && NoWhites(heap.Marks()) && heap.table.flight == {} && IsGroup(c)
    modifies heap, heap.groups, heap.table`emptyPages, heap.table`list, heap.table`flight
    modifies heap.table.code, heap.table.base, heap.table.count, heap.table.next, vector.words
    ensures heap.Valid() && heap.Quiet() && NoWhites(heap.Marks()) && heap.table.flight == {}
    ensures heap.marked == old(heap.marked) && heap.unmarked == old(heap.unmarked)
    ensures new_ == NULL <==>
              && old(NoMemory(heap, c))
              && !RoomFor(old(heap.table.code[..]), old(heap.table.base[..]), old(heap.Colours()), refs,
                          Elements(roots), heap.marked, c)
    ensures new_ != NULL ==> Given(then_, heap, c, class_, new_, block)
    ensures if !old(NoMemory(heap, c)) then then_ == old(heap.Colours())
            else exists code, base :: Collected(old(heap.table.code[..]), old(heap.table.base[..]), old(heap.Colours()),
                                                refs, Elements(roots), heap.marked, code, base, then_)
    ensures KeepsInUse(old(heap.table.code[..]), old(heap.Colours()), refs, Elements(roots), heap, new_)
  {
    ghost var code0, base0, cs0 := heap.table.code[..], heap.table.base[..], heap.Colours();
    assert |code0| == |base0| && |cs0| == 20 && Keys(code0, base0, cs0);
    hide Good, Tiles, Listed, Group.Valid, PageTable.Valid, PageTable.Linked, Keys, Assigned, MaximalUnused, Unused;
    hide Heap.GroupsValid, Survivors, ColoursOf, MarksOf, Collected, HolesAreMaximalRuns, Elements, RoomFor, NoMemory;
    hide NoGrays, NoWhites, Given, KeepsInUse;
    new_, block := Attempt(heap, c, class_);
    then_ := cs0;
    if new_ == NULL {
      new_, block, then_ := CollectAndRetry(heap, c, class_, roots, vector, refs);
    } else {
      GivenKeepsInUse(code0, base0, cs0, refs, Elements(roots), code0, base0, cs0, heap, c, class_, new_, block);
    }
  }
}
