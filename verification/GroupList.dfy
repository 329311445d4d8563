/**
 One size group: a main chain gray* black* green* cut by the pointers gray, black, free
 and last, and a white chain.  Every header of the group is in exactly one of the two.
 */
module GroupList {
  import opened Colours
  import opened Links

  /** The five pointers of GROUP_INFO. */
  datatype Cut = Cut(gray: int, black: int, free: int, last: int, white: int)

  /** What the pointers stand for: the main chain, how much of it is gray, gray or black, and the white chain. */
  datatype Shape = Shape(main: seq<int>, grays: nat, retained: nat, whites: seq<int>)

  function Colouring(h: Memory): (c: map<int, Colour>)
    ensures c.Keys == h.Keys
  {
    map p | p in h :: h[p].colour
  }

  predicate ColourAt(c: map<int, Colour>, s: Shape, marked: Colour, i: nat)
    requires i < |s.main|
  {
    s.main[i] in c && c[s.main[i]] == (if i < s.grays then Gray else if i < s.retained then marked else Green)
  }

  predicate BlackPointer(black: int, s: Shape)
    requires s.grays <= |s.main|
  {
    if s.grays == 0 then black == At(s.main, 0)
    else black == s.main[s.grays - 1] || (s.grays < |s.main| && black == s.main[s.grays])
  }

  predicate Pointers(c: Cut, s: Shape) {
    && s.grays <= s.retained <= |s.main|
    && c.free == At(s.main, s.retained)
    && c.last == At(s.main, |s.main| - 1)
    && c.white == At(s.whites, 0)
    && (if c.gray == NULL then s.grays == 0 else s.retained > 0 && c.gray == s.main[0])
    && BlackPointer(c.black, s)
  }

  /** Every header is in exactly one of the two chains. */
  ghost predicate Partition(h: Memory, s: Shape) {
    && (forall p :: p in h <==> p in s.main || p in s.whites)
    && (forall p | p in s.main :: p !in s.whites)
  }

  /** A header's colour says which part of which chain it is in. */
  ghost predicate Coloured(c: map<int, Colour>, s: Shape, marked: Colour, unmarked: Colour) {
    && s.grays <= s.retained <= |s.main|
    && (forall i: nat | i < |s.main| :: ColourAt(c, s, marked, i))
    && (forall p | p in s.whites :: p in c && c[p] == unmarked)
  }

  ghost predicate Good(h: Memory, c: Cut, s: Shape, marked: Colour, unmarked: Colour) {
    && Generation(marked) && Generation(unmarked) && marked != unmarked
    && Chain(h, s.main) && Chain(h, s.whites)
    && Partition(h, s)
    && Coloured(Colouring(h), s, marked, unmarked)
    && Pointers(c, s)
  }

  function Drop(s: seq<int>, k: nat): seq<int>
    requires k < |s|
  {
    s[..k] + s[k + 1..]
  }

  /** The address of block j when blocks of this size are laid out from base on. */
  function BlockAt(base: int, size: nat, j: nat): int {
    if j == 0 then base else BlockAt(base, size, j - 1) + size
  }

  function Blocks(base: int, size: nat, count: nat): (r: seq<int>)
    ensures |r| == count && forall j | 0 <= j < count :: r[j] == BlockAt(base, size, j)
  {
    seq(count, j requires 0 <= j => BlockAt(base, size, j))
  }

  function Grayed(s: Shape, k: nat, current: int): Shape
    requires k < |s.whites|
  {
    Shape([current] + s.main, s.grays + 1, s.retained + 1, Drop(s.whites, k))
  }

  /** current, unlinked from the white chain, becomes the gray head of the main chain. */
  ghost predicate Pushed(h: Memory, k: Memory, main: seq<int>, current: int) {
    && k.Keys == h.Keys && current in h && (main != [] ==> main[0] in h)
    && k[current] == h[current].(prev := NULL, next := At(main, 0), colour := Gray)
    && (main != [] ==> k[main[0]] == h[main[0]].(prev := current))
    && forall p | p in h && p != current && (main == [] || p != main[0]) :: k[p] == h[p]
  }

  predicate Linked(h: Memory, p: int) {
    p in h && p != NULL && (h[p].prev != NULL ==> h[p].prev in h) && (h[p].next != NULL ==> h[p].next in h)
  }

  lemma WhiteLinked(h: Memory, c: Cut, s: Shape, k: nat, marked: Colour, unmarked: Colour)
    requires Good(h, c, s, marked, unmarked) && k < |s.whites|
    ensures Linked(h, s.whites[k]) && s.whites[k] !in s.main
    ensures c.gray != NULL ==> s.main != [] && c.gray == s.main[0]
    ensures s.main != [] ==> s.main[0] in h && s.main[0] != NULL && s.main[0] != s.whites[k]
    ensures if c.black == NULL then c.gray == NULL && s.main == [] else c.black in h && c.black != s.whites[k]
    ensures c.gray == NULL ==> c.black == At(s.main, 0)
  {
    InChain(h, s.whites, s.whites[k]);
    if s.main != [] { InChain(h, s.main, s.main[0]); }
    if s.retained > 0 { assert LinkAt(h, s.main, 0); }
    if s.grays > 0 { assert LinkAt(h, s.main, s.grays - 1); }
    if s.grays < |s.main| { assert LinkAt(h, s.main, s.grays); }
  }

  /** u in front of the chain that starts at head. */
  function PushGray(h: Memory, u: int, head: int): Memory
    requires u in h && (head != NULL ==> head in h)
  {
    var h1 := SetNext(SetPrev(h, u, NULL), u, head);
    SetColour(if head == NULL then h1 else SetPrev(h1, head, u), u, Gray)
  }

  lemma PushedInfo(h: Memory, k: Memory, main: seq<int>, u: int)
    requires Pushed(h, k, main, u) && u !in main
    ensures Colouring(k) == Colouring(h)[u := Gray]
    ensures forall p | p in h :: k[p].class_ == h[p].class_
  {
    forall p | p in h ensures k[p].class_ == h[p].class_ && k[p].colour == Colouring(h)[u := Gray][p] {
      if main != [] && p == main[0] { assert p in main; }
    }
  }

  lemma GrayChains(h: Memory, h2: Memory, s: Shape, k: nat)
    requires Chain(h, s.main) && Chain(h, s.whites) && Partition(h, s)
    requires k < |s.whites| && Linked(h, s.whites[k]) && Pushed(Unlink(h, s.whites[k]), h2, s.main, s.whites[k])
    ensures Chain(h2, [s.whites[k]] + s.main) && Chain(h2, Drop(s.whites, k))
  {
    var u := s.whites[k];
    var h1 := Unlink(h, u);
    var ws := Drop(s.whites, k);
    ChainUnlink(h, s.whites, k);
    assert u in s.whites;
    forall p | p in s.main ensures h1[p] == h[p] { assert p !in s.whites; }
    ChainFrame(h, h1, s.main);
    ChainPush(h1, h2, s.main, u);
    forall p | p in ws ensures p in h1 && h2[p] == h1[p] {
      InChain(h1, ws, p);
      assert p in s.whites && p != u;
    }
    ChainFrame(h1, h2, ws);
  }

  lemma GrayPartition(h: Memory, s: Shape, k: nat)
    requires Partition(h, s) && k < |s.whites| && Chain(h, s.whites)
    ensures Partition(h, Grayed(s, k, s.whites[k]))
  {
    var u := s.whites[k];
    var ws := Drop(s.whites, k);
    forall p ensures p in ws <==> p in s.whites && p != u {
      if p in s.whites && p != u {
        var i :| 0 <= i < |s.whites| && s.whites[i] == p;
        assert ws[if i < k then i else i - 1] == p;
      }
    }
  }

  lemma GrayColoured(c: map<int, Colour>, s: Shape, k: nat, marked: Colour, unmarked: Colour)
    requires Coloured(c, s, marked, unmarked) && k < |s.whites|
    requires s.whites[k] !in s.main && s.whites[k] !in Drop(s.whites, k)
    ensures Coloured(c[s.whites[k] := Gray], Grayed(s, k, s.whites[k]), marked, unmarked)
  {
    var u := s.whites[k];
    var g := Grayed(s, k, u);
    var d := c[u := Gray];
    forall i: nat | i < |g.main| ensures ColourAt(d, g, marked, i) {
      if i > 0 { assert ColourAt(c, s, marked, i - 1) && s.main[i - 1] in s.main; }
    }
  }

  ghost predicate SameClasses(h: Memory, k: Memory) {
    forall p | p in h && p in k :: k[p].class_ == h[p].class_
  }

  function GrayedCut(h: Memory, c: Cut, u: int): Cut
    requires u in h
  {
    Cut(u, if c.black == NULL then u else c.black, c.free, if c.black == NULL then u else c.last,
        if c.white == u then h[u].next else c.white)
  }

  lemma GrayPointers(h: Memory, c: Cut, s: Shape, k: nat)
    requires Chain(h, s.main) && Chain(h, s.whites) && Pointers(c, s) && k < |s.whites|
    ensures s.whites[k] in h && Pointers(GrayedCut(h, c, s.whites[k]), Grayed(s, k, s.whites[k]))
  {
    assert LinkAt(h, s.whites, k);
    if s.main != [] { assert LinkAt(h, s.main, 0); }
    if s.grays > 0 { assert LinkAt(h, s.main, s.grays - 1); }
    if s.grays < |s.main| { assert LinkAt(h, s.main, s.grays); }
  }

  lemma PushGrayPushes(h: Memory, main: seq<int>, u: int)
    requires u in h && (main != [] ==> main[0] in h && main[0] != NULL && main[0] != u)
    ensures Pushed(h, PushGray(h, u, At(main, 0)), main, u)
  {}

  lemma WhiteShade(h: Memory, s: Shape, u: int, marked: Colour, unmarked: Colour)
    requires Coloured(Colouring(h), s, marked, unmarked) && u in s.whites
    ensures Shade(Colouring(h), unmarked, u) == Colouring(h)[u := Gray]
  {}

  lemma GrayInfo(h: Memory, s: Shape, k: nat)
    requires Chain(h, s.main) && Chain(h, s.whites) && Partition(h, s) && k < |s.whites| && Linked(h, s.whites[k])
    ensures s.main != [] ==> s.main[0] in Unlink(h, s.whites[k])
    ensures var u := s.whites[k];
            var h2 := PushGray(Unlink(h, u), u, At(s.main, 0));
            && Pushed(Unlink(h, u), h2, s.main, u)
            && Colouring(h2) == Colouring(h)[u := Gray]
            && SameClasses(h, h2)
  {
    var u := s.whites[k];
    assert u in s.whites;
    if s.main != [] { InChain(h, s.main, s.main[0]); }
    ChainUnlink(h, s.whites, k);
    assert Colouring(Unlink(h, u)) == Colouring(h);
    PushGrayPushes(Unlink(h, u), s.main, u);
    PushedInfo(Unlink(h, u), PushGray(Unlink(h, u), u, At(s.main, 0)), s.main, u);
  }

  /** RTmake_object_gray keeps the group good, whichever of its three branches it takes. */
  lemma GrayGood(h: Memory, c: Cut, s: Shape, k: nat, marked: Colour, unmarked: Colour)
    requires Good(h, c, s, marked, unmarked) && k < |s.whites|
    ensures Linked(h, s.whites[k]) && (s.main != [] ==> s.main[0] in h)
    ensures var u := s.whites[k];
            var h2 := PushGray(Unlink(h, u), u, At(s.main, 0));
            && Good(h2, GrayedCut(h, c, u), Grayed(s, k, u), marked, unmarked)
            && Colouring(h2) == Shade(Colouring(h), unmarked, u)
            && SameClasses(h, h2)
    ensures var g := Grayed(s, k, s.whites[k]);
            |g.whites| == |s.whites| - 1 && g.retained - g.grays == s.retained - s.grays
  {
    hide Coloured, Pointers, Pushed, SameClasses, PushGray;
    var u := s.whites[k];
    assert u in s.whites && u !in s.main;
    WhiteLinked(h, c, s, k, marked, unmarked);
    GrayInfo(h, s, k);
    WhiteShade(h, s, u, marked, unmarked);
    GrayChains(h, PushGray(Unlink(h, u), u, At(s.main, 0)), s, k);
    GrayPartition(h, s, k);
    ChainUnlink(h, s.whites, k);
    GrayColoured(Colouring(h), s, k, marked, unmarked);
    GrayPointers(h, c, s, k);
  }

  // ---------------------------------------------------------------- what a good group looks like

  /** The row of the table of pointer states: gray, black, free, last, white from the top bit down. */
  function Row(c: Cut): nat {
    (if c.gray != NULL then 16 else 0) + (if c.black != NULL then 8 else 0) + (if c.free != NULL then 4 else 0)
    + (if c.last != NULL then 2 else 0) + (if c.white != NULL then 1 else 0)
  }

  /** Only the ten rows of the table that are not marked invalid occur. */
  lemma TenRows(h: Memory, c: Cut, s: Shape, marked: Colour, unmarked: Colour)
    requires Good(h, c, s, marked, unmarked)
    ensures Row(c) in {0, 1, 10, 11, 14, 15, 26, 27, 30, 31}
  {
    if s.main != [] {
      assert LinkAt(h, s.main, 0) && LinkAt(h, s.main, |s.main| - 1);
      if s.grays > 0 { assert LinkAt(h, s.main, s.grays - 1); }
      if s.grays < |s.main| { assert LinkAt(h, s.main, s.grays); }
    }
  }

  lemma ChainDistinct(h: Memory, s: seq<int>)
    requires Chain(h, s)
    ensures forall i, j | 0 <= i < j < |s| :: s[i] != s[j]
  {}

  lemma SliceMember(s: seq<int>, lo: nat, hi: nat, i: nat)
    requires lo <= hi <= |s| && i < |s| && forall j, k | 0 <= j < k < |s| :: s[j] != s[k]
    ensures s[i] in s[lo..hi] <==> lo <= i < hi
  {
    if lo <= i < hi { assert s[lo..hi][i - lo] == s[i]; }
  }

  /** A header's colour and its place in the chains determine each other. */
  lemma ColourIsPlace(h: Memory, c: Cut, s: Shape, marked: Colour, unmarked: Colour, p: int)
    requires Good(h, c, s, marked, unmarked) && p in h
    ensures h[p].colour == unmarked <==> p in s.whites
    ensures h[p].colour == Gray <==> p in s.main[..s.grays]
    ensures h[p].colour == marked <==> p in s.main[s.grays..s.retained]
    ensures h[p].colour == Green <==> p in s.main[s.retained..]
  {
    hide Chain, Pointers;
    ChainDistinct(h, s.main);
    if p in s.main {
      var i :| 0 <= i < |s.main| && s.main[i] == p;
      assert ColourAt(Colouring(h), s, marked, i);
      SliceMember(s.main, 0, s.grays, i);
      SliceMember(s.main, s.grays, s.retained, i);
      SliceMember(s.main, s.retained, |s.main|, i);
    }
  }

  // ---------------------------------------------------------------- RTallocate and scan_object_with_group

  lemma RecolourChains(h: Memory, k: Memory, s: Shape, u: int)
    requires Chain(h, s.main) && Chain(h, s.whites) && Partition(h, s)
    requires u in h && k.Keys == h.Keys && k[u].prev == h[u].prev && k[u].next == h[u].next
    requires forall p | p in h && p != u :: k[p] == h[p]
    ensures Chain(k, s.main) && Chain(k, s.whites) && Partition(k, s)
    ensures Colouring(k) == Colouring(h)[u := k[u].colour]
  {
    ChainFrame(h, k, s.main);
    ChainFrame(h, k, s.whites);
    RecolourOne(h, k, u);
  }

  lemma RecolourOne(h: Memory, k: Memory, u: int)
    requires u in h && k.Keys == h.Keys && forall p | p in h && p != u :: k[p] == h[p]
    ensures Colouring(k) == Colouring(h)[u := k[u].colour]
  {
    forall p | p in k ensures Colouring(k)[p] == Colouring(h)[u := k[u].colour][p] {}
  }

  /** Popping the free list moves the boundary between black and green by one. */
  lemma AllocGood(h: Memory, k: Memory, sc: int, c: Cut, s: Shape, marked: Colour, unmarked: Colour)
    requires Good(h, c, s, marked, unmarked) && s.retained < |s.main|
    requires var u := s.main[s.retained]; u in h && k == h[u := h[u].(colour := marked, class_ := sc)]
    ensures Good(k, c.(free := h[s.main[s.retained]].next), s.(retained := s.retained + 1), marked, unmarked)
    ensures Colouring(k) == Blacken(Colouring(h), marked, s.main[s.retained])
  {
    var u := s.main[s.retained];
    RecolourChains(h, k, s, u);
    assert LinkAt(h, s.main, s.retained) && u in s.main;
    AllocColoured(Colouring(h), s, marked, unmarked);
  }

  lemma AllocColoured(c: map<int, Colour>, s: Shape, marked: Colour, unmarked: Colour)
    requires Coloured(c, s, marked, unmarked) && s.retained < |s.main| && s.main[s.retained] !in s.whites
    requires forall i, j | 0 <= i < j < |s.main| :: s.main[i] != s.main[j]
    ensures Coloured(c[s.main[s.retained] := marked], s.(retained := s.retained + 1), marked, unmarked)
  {
    var d := c[s.main[s.retained] := marked];
    var t := s.(retained := s.retained + 1);
    forall i: nat | i < |t.main| ensures ColourAt(d, t, marked, i) { assert ColourAt(c, s, marked, i); }
  }

  /** The last gray header becomes the first black one. */
  lemma BlackenGood(h: Memory, k: Memory, c: Cut, s: Shape, marked: Colour, unmarked: Colour)
    requires Good(h, c, s, marked, unmarked) && s.grays > 0
    requires s.main[s.grays - 1] in h && k == SetColour(h, s.main[s.grays - 1], marked)
    ensures Good(k, c.(black := s.main[s.grays - 1]), s.(grays := s.grays - 1), marked, unmarked)
    ensures Colouring(k) == Blacken(Colouring(h), marked, s.main[s.grays - 1])
  {
    var u := s.main[s.grays - 1];
    RecolourChains(h, k, s, u);
    assert u in s.main;
    BlackenColoured(Colouring(h), s, marked, unmarked);
  }

  lemma BlackenColoured(c: map<int, Colour>, s: Shape, marked: Colour, unmarked: Colour)
    requires Coloured(c, s, marked, unmarked) && s.grays > 0 && s.main[s.grays - 1] !in s.whites
    requires forall i, j | 0 <= i < j < |s.main| :: s.main[i] != s.main[j]
    ensures Coloured(c[s.main[s.grays - 1] := marked], s.(grays := s.grays - 1), marked, unmarked)
  {
    var d := c[s.main[s.grays - 1] := marked];
    var t := s.(grays := s.grays - 1);
    forall i: nat | i < |t.main| ensures ColourAt(d, t, marked, i) { assert ColourAt(c, s, marked, i); }
  }

  lemma FreeLinked(h: Memory, c: Cut, s: Shape, marked: Colour, unmarked: Colour)
    requires Good(h, c, s, marked, unmarked) && c.free != NULL
    ensures s.retained < |s.main| && c.free == s.main[s.retained] && c.free in h
  {
    if s.retained < |s.main| { assert LinkAt(h, s.main, s.retained); }
  }

  lemma GrayLinked(h: Memory, c: Cut, s: Shape, marked: Colour, unmarked: Colour)
    requires Good(h, c, s, marked, unmarked) && s.grays > 0
    ensures s.grays <= |s.main| && s.main[s.grays - 1] in h && h[s.main[s.grays - 1]].prev == At(s.main, s.grays - 2)
  {
    assert LinkAt(h, s.main, s.grays - 1);
  }

  lemma FlipLinked(h: Memory, c: Cut, s: Shape, marked: Colour, unmarked: Colour)
    requires Good(h, c, s, marked, unmarked)
    ensures Chain(h, s.main) && s.retained <= |s.main|
    ensures c.free == At(s.main, s.retained) && c.last == At(s.main, |s.main| - 1)
    ensures c.free != NULL ==> s.retained < |s.main| && c.free in h && h[c.free].prev == At(s.main, s.retained - 1)
    ensures c.free == NULL ==> s.retained == |s.main|
    ensures s.retained > 0 ==> s.main[s.retained - 1] in h && s.main[s.retained - 1] != NULL
    ensures c.last == NULL <==> s.main == []
    ensures forall p | p in s.main :: p in h
  {
    if s.retained < |s.main| { assert LinkAt(h, s.main, s.retained); }
    if s.retained > 0 { assert LinkAt(h, s.main, s.retained - 1); }
    if s.main != [] { assert LinkAt(h, s.main, |s.main| - 1); }
    ChainMembers(h, s.main);
  }

  lemma WhitesLinked(h: Memory, c: Cut, s: Shape, marked: Colour, unmarked: Colour)
    requires Good(h, c, s, marked, unmarked)
    ensures Linkable(h, s.main, s.whites)
    ensures c.last == At(s.main, |s.main| - 1) && c.white == At(s.whites, 0)
    ensures c.white == NULL <==> s.whites == []
    ensures forall p | p in h :: p in s.main || p in s.whites
  {
    ChainMembers(h, s.main);
    ChainMembers(h, s.whites);
    assert s.whites != [] ==> s.whites[0] in s.whites;
  }

  /** Where scan_gray_set goes on: the last gray header, or NULL when none is left. */
  lemma ScanCursor(h: Memory, c: Cut, s: Shape, marked: Colour, unmarked: Colour)
    requires Good(h, c, s, marked, unmarked)
    ensures c.black != NULL ==> c.black in h
    ensures (if c.black != NULL && h[c.black].colour != Gray then h[c.black].prev else c.black) ==
              At(s.main, s.grays - 1)
  {
    if s.main != [] {
      if s.grays > 0 { assert LinkAt(h, s.main, s.grays - 1) && ColourAt(Colouring(h), s, marked, s.grays - 1); }
      if s.grays < |s.main| { assert LinkAt(h, s.main, s.grays) && ColourAt(Colouring(h), s, marked, s.grays); }
    }
  }

  // ---------------------------------------------------------------- flip

  function Flipped(s: Shape): Shape
    requires s.retained <= |s.main|
  {
    Shape(s.main[s.retained..], 0, 0, s.main[..s.retained])
  }

  /** The main chain cut in front of its free part. */
  ghost predicate CutBefore(h: Memory, k: Memory, main: seq<int>, n: nat)
    requires n <= |main|
  {
    && k.Keys == h.Keys
    && (forall p | p in main :: p in h)
    && (forall i | 0 <= i < |main| :: k[main[i]] == h[main[i]].(
          prev := if i == n then NULL else h[main[i]].prev,
          next := if i == n - 1 then NULL else h[main[i]].next))
    && (forall p | p in h && p !in main :: k[p] == h[p])
  }

  function FlippedCut(c: Cut): Cut {
    Cut(NULL, c.free, c.free, if c.free == NULL then NULL else c.last, if c.black == c.free then NULL else c.black)
  }

  /**
   Constant-time recolouring: with the two colours swapped and the chain cut, the black
   headers are exactly the white ones and no header has changed its colour bits.
   */
  lemma FlipGood(h: Memory, k: Memory, c: Cut, s: Shape, marked: Colour, unmarked: Colour)
    requires Good(h, c, s, marked, unmarked) && s.grays == 0 && s.whites == []
    requires CutBefore(h, k, s.main, s.retained)
    ensures Good(k, FlippedCut(c), Flipped(s), unmarked, marked)
    ensures Colouring(k) == Colouring(h)
  {
    CutColours(h, k, s.main, s.retained);
    ChainCut(h, k, s.main, s.retained);
    FlipPartition(s.main, s.retained);
    FlipColoured(Colouring(h), s, marked, unmarked);
    FlipPointers(h, c, s);
  }

  lemma CutClasses(h: Memory, k: Memory, main: seq<int>, n: nat)
    requires n <= |main| && CutBefore(h, k, main, n)
    ensures SameClasses(h, k)
  {
    forall p | p in h && p in k ensures k[p].class_ == h[p].class_ {
      if p in main {
        var i :| 0 <= i < |main| && main[i] == p;
        assert k[main[i]].class_ == h[main[i]].class_;
      }
    }
  }

  lemma CutColours(h: Memory, k: Memory, main: seq<int>, n: nat)
    requires n <= |main| && CutBefore(h, k, main, n)
    ensures Colouring(k) == Colouring(h)
  {
    forall p | p in h ensures k[p].colour == h[p].colour {
      if p in main {
        var i :| 0 <= i < |main| && main[i] == p;
        assert k[main[i]].colour == h[main[i]].colour;
      }
    }
  }

  lemma FlipPartition(main: seq<int>, n: nat)
    requires n <= |main| && forall i, j | 0 <= i < j < |main| :: main[i] != main[j]
    ensures forall p :: p in main <==> p in main[n..] || p in main[..n]
    ensures forall p | p in main[n..] :: p !in main[..n]
  {
    assert main == main[..n] + main[n..];
  }

  lemma FlipColoured(c: map<int, Colour>, s: Shape, marked: Colour, unmarked: Colour)
    requires Coloured(c, s, marked, unmarked) && s.grays == 0
    ensures Coloured(c, Flipped(s), unmarked, marked)
  {
    var t := Flipped(s);
    forall i: nat | i < |t.main| ensures ColourAt(c, t, unmarked, i) { assert ColourAt(c, s, marked, s.retained + i); }
    forall p | p in t.whites ensures p in c && c[p] == marked {
      var i :| 0 <= i < s.retained && s.main[i] == p;
      assert ColourAt(c, s, marked, i);
    }
  }

  lemma FlipPointers(h: Memory, c: Cut, s: Shape)
    requires Chain(h, s.main) && Pointers(c, s) && s.grays == 0
    ensures Pointers(FlippedCut(c), Flipped(s))
  {
    if s.main != [] {
      assert LinkAt(h, s.main, 0);
      if s.retained < |s.main| { assert LinkAt(h, s.main, s.retained); }
    }
  }

  // ---------------------------------------------------------------- recycle_group_garbage

  function RecycledShape(s: Shape): Shape { Shape(s.main + s.whites, s.grays, s.retained, []) }

  /** The first n headers of ws have turned green; nothing else has changed. */
  ghost predicate Greened(h: Memory, k: Memory, ws: seq<int>, n: nat)
    requires n <= |ws|
  {
    k.Keys == h.Keys && forall p | p in h :: k[p] == if p in ws[..n] then h[p].(colour := Green) else h[p]
  }

  ghost predicate Joined(h: Memory, k: Memory, s: seq<int>, t: seq<int>) {
    && k.Keys == h.Keys
    && (forall i | 0 <= i < |s| ::
          s[i] in h && k[s[i]] == h[s[i]].(next := if i == |s| - 1 then At(t, 0) else h[s[i]].next))
    && (forall i | 0 <= i < |t| ::
          t[i] in h && k[t[i]] == h[t[i]].(prev := if i == 0 then At(s, |s| - 1) else h[t[i]].prev))
  }

  ghost predicate Linkable(h: Memory, s: seq<int>, t: seq<int>) {
    && Chain(h, s) && Chain(h, t)
    && (forall p | p in s :: p in h && p != NULL && p !in t) && (forall p | p in t :: p in h && p != NULL)
  }

  /** The writes that append the chain of t to the chain of s. */
  function JoinLinks(h: Memory, last: int, head: int, tail: int): Memory
    requires head in h && tail in h && (last != NULL ==> last in h)
  {
    var h1 := SetNext(h, tail, NULL);
    SetPrev(if last != NULL then SetNext(h1, last, head) else h1, head, last)
  }

  lemma JoinsLinks(h: Memory, s: seq<int>, t: seq<int>)
    requires Linkable(h, s, t) && t != []
    ensures t[0] in h && t[|t| - 1] in h && (s != [] ==> s[|s| - 1] in h && s[|s| - 1] != NULL)
    ensures Joined(h, JoinLinks(h, At(s, |s| - 1), t[0], t[|t| - 1]), s, t)
  {
    assert t[0] in t && t[|t| - 1] in t && LinkAt(h, t, |t| - 1);
    if s != [] { assert s[|s| - 1] in s; }
    var k := JoinLinks(h, At(s, |s| - 1), t[0], t[|t| - 1]);
    forall i | 0 <= i < |s| ensures k[s[i]] == h[s[i]].(next := if i == |s| - 1 then At(t, 0) else h[s[i]].next) {
      assert s[i] in s;
    }
  }

  lemma GreenedLinkable(h: Memory, g: Memory, s: seq<int>, t: seq<int>)
    requires Linkable(h, s, t) && Greened(h, g, t, |t|)
    ensures Linkable(g, s, t)
    ensures t == [] ==> Joined(g, g, s, t)
  {
    ChainFrame(h, g, s);
    ChainFrame(h, g, t);
    if t == [] && s != [] { assert LinkAt(g, s, |s| - 1); }
  }

  function RecycledCut(c: Cut, tail: int): Cut {
    Cut(c.gray, if c.black == NULL then c.white else c.black, if c.free == NULL then c.white else c.free,
        if c.white == NULL then c.last else tail, NULL)
  }

  /** The whole white chain becomes the tail of the free list. */
  lemma RecycleGood(h: Memory, g: Memory, k: Memory, c: Cut, s: Shape, marked: Colour, unmarked: Colour)
    requires Good(h, c, s, marked, unmarked) && s.grays == 0
    requires Greened(h, g, s.whites, |s.whites|) && Joined(g, k, s.main, s.whites)
    ensures Good(k, RecycledCut(c, At(s.whites, |s.whites| - 1)), RecycledShape(s), marked, unmarked)
    ensures Colouring(k) == Recycled(Colouring(h), unmarked)
  {
    hide Pointers, Coloured;
    ChainFrame(h, g, s.main);
    ChainFrame(h, g, s.whites);
    ChainJoin(g, k, s.main, s.whites);
    RecycleColoured(h, g, k, s, marked, unmarked);
    RecyclePointers(h, c, s);
    assert Partition(k, RecycledShape(s));
  }

  lemma RecycleClasses(h: Memory, g: Memory, k: Memory, main: seq<int>, ws: seq<int>)
    requires Greened(h, g, ws, |ws|) && Joined(g, k, main, ws) && forall p | p in h :: p in main || p in ws
    ensures SameClasses(h, k)
  {
    forall p | p in h && p in k ensures k[p].class_ == h[p].class_ {
      if p in main {
        var i :| 0 <= i < |main| && main[i] == p;
        assert k[main[i]].class_ == g[main[i]].class_;
      } else {
        var i :| 0 <= i < |ws| && ws[i] == p;
        assert k[ws[i]].class_ == g[ws[i]].class_;
      }
    }
  }

  lemma RecyclePointers(h: Memory, c: Cut, s: Shape)
    requires Chain(h, s.main) && Chain(h, s.whites) && Pointers(c, s) && s.grays == 0
    ensures Pointers(RecycledCut(c, At(s.whites, |s.whites| - 1)), RecycledShape(s))
  {
    if s.main != [] { assert LinkAt(h, s.main, 0) && LinkAt(h, s.main, |s.main| - 1); }
    if s.whites != [] { assert LinkAt(h, s.whites, 0); }
    if s.retained < |s.main| { assert LinkAt(h, s.main, s.retained); }
  }

  lemma RecycleColoured(h: Memory, g: Memory, k: Memory, s: Shape, marked: Colour, unmarked: Colour)
    requires Coloured(Colouring(h), s, marked, unmarked) && Partition(h, s) && marked != unmarked && unmarked != Green
    requires s.grays == 0
    requires Greened(h, g, s.whites, |s.whites|) && Joined(g, k, s.main, s.whites)
    ensures Colouring(k) == Recycled(Colouring(h), unmarked)
    ensures Coloured(Colouring(k), RecycledShape(s), marked, unmarked)
  {
    assert s.whites[..|s.whites|] == s.whites;
    forall p | p in h ensures k[p].colour == if p in s.whites then Green else h[p].colour {
      if p in s.main {
        var i :| 0 <= i < |s.main| && s.main[i] == p;
        assert k[s.main[i]].colour == g[s.main[i]].colour;
      } else {
        var i :| 0 <= i < |s.whites| && s.whites[i] == p;
        assert k[s.whites[i]].colour == g[s.whites[i]].colour;
      }
    }
    forall p | p in h ensures (h[p].colour == unmarked) <==> p in s.whites {
      if p in s.main {
        var i :| 0 <= i < |s.main| && s.main[i] == p;
        assert ColourAt(Colouring(h), s, marked, i);
      }
    }
    var t := RecycledShape(s);
    forall i: nat | i < |t.main| ensures ColourAt(Colouring(k), t, marked, i) {
      if i < |s.main| {
        assert ColourAt(Colouring(h), s, marked, i) && s.main[i] in s.main;
      } else {
        assert t.main[i] in s.whites;
      }
      assert t.main[i] in h && t.main[i] in k;
    }
  }

  // ---------------------------------------------------------------- remove_object_from_free_list

  function Dropped(s: Shape, k: nat): Shape
    requires k < |s.main|
  {
    s.(main := Drop(s.main, k))
  }

  function DroppedCut(h: Memory, c: Cut, u: int): Cut
    requires u in h
  {
    c.(free := if u == c.free then h[u].next else c.free,
       black := if u == c.black then h[u].next else c.black,
       last := if u == c.last then (if h[u].next == NULL then h[u].prev else h[u].next) else c.last)
  }

  lemma DropMembers(s: seq<int>, k: nat)
    requires k < |s| && forall i, j | 0 <= i < j < |s| :: s[i] != s[j]
    ensures forall p :: p in Drop(s, k) <==> p in s && p != s[k]
  {
    var t := Drop(s, k);
    forall p ensures p in t <==> p in s && p != s[k] {
      if p in s && p != s[k] {
        var i :| 0 <= i < |s| && s[i] == p;
        assert t[if i < k then i else i - 1] == p;
      }
    }
  }

  lemma DropChains(h: Memory, s: Shape, k: nat)
    requires Chain(h, s.main) && Chain(h, s.whites) && Partition(h, s) && k < |s.main|
    ensures Linked(h, s.main[k])
    ensures var h2 := Unlink(h, s.main[k]) - {s.main[k]};
            && Chain(h2, Drop(s.main, k)) && Chain(h2, s.whites)
            && Partition(h2, s.(main := Drop(s.main, k)))
            && Colouring(h2) == Colouring(h) - {s.main[k]}
  {
    var u := s.main[k];
    InChain(h, s.main, u);
    ChainUnlink(h, s.main, k);
    DropMembers(s.main, k);
    var h1 := Unlink(h, u);
    var h2 := h1 - {u};
    UnlinkColours(h, u);
    forall p | p in s.whites ensures p in h2 && h2[p] == h[p] { assert p !in s.main; }
    hide Unlink;
    ChainFrame(h, h2, s.whites);
    ChainFrame(h1, h2, Drop(s.main, k));
  }

  lemma UnlinkColours(h: Memory, p: int)
    requires Linked(h, p)
    ensures (Unlink(h, p) - {p}).Keys == h.Keys - {p} && Colouring(Unlink(h, p) - {p}) == Colouring(h) - {p}
  {}

  /** A green header leaves the free list, wherever it is in it. */
  lemma DropGood(h: Memory, c: Cut, s: Shape, k: nat, marked: Colour, unmarked: Colour)
    requires Good(h, c, s, marked, unmarked) && s.grays == 0 && s.retained <= k < |s.main|
    ensures Linked(h, s.main[k])
    ensures Good(Unlink(h, s.main[k]) - {s.main[k]}, DroppedCut(h, c, s.main[k]), Dropped(s, k), marked, unmarked)
    ensures Colouring(Unlink(h, s.main[k]) - {s.main[k]}) == Colouring(h) - {s.main[k]}
    ensures s.main[k] in h && h[s.main[k]].colour == Green
  {
    hide Pointers, Unlink;
    DropChains(h, s, k);
    assert s.main[k] in s.main;
    DropColoured(Colouring(h), s, k, marked, unmarked);
    DropPointers(h, c, s, k);
    assert ColourAt(Colouring(h), s, marked, k);
  }

  lemma UnlinkClasses(h: Memory, p: int)
    requires Linked(h, p)
    ensures SameClasses(h, Unlink(h, p) - {p})
  {}

  lemma DropColoured(c: map<int, Colour>, s: Shape, k: nat, marked: Colour, unmarked: Colour)
    requires Coloured(c, s, marked, unmarked) && s.retained <= k < |s.main| && s.main[k] !in s.whites
    requires forall i, j | 0 <= i < j < |s.main| :: s.main[i] != s.main[j]
    ensures Coloured(c - {s.main[k]}, Dropped(s, k), marked, unmarked)
  {
    var t := Dropped(s, k);
    var d := c - {s.main[k]};
    forall i: nat | i < |t.main| ensures ColourAt(d, t, marked, i) {
      var j := if i < k then i else i + 1;
      assert t.main[i] == s.main[j] && ColourAt(c, s, marked, j);
    }
  }

  lemma DropPointers(h: Memory, c: Cut, s: Shape, k: nat)
    requires Chain(h, s.main) && Pointers(c, s) && s.grays == 0 && s.retained <= k < |s.main|
    ensures s.main[k] in h && Pointers(DroppedCut(h, c, s.main[k]), Dropped(s, k))
  {
    assert LinkAt(h, s.main, k);
    assert LinkAt(h, s.main, 0) && LinkAt(h, s.main, s.retained) && LinkAt(h, s.main, |s.main| - 1);
  }

  // ---------------------------------------------------------------- init_pages_for_group

  function Greens(blocks: seq<int>): (r: map<int, Colour>)
    ensures forall p :: p in r <==> p in blocks
  {
    map p | p in blocks :: Green
  }

  function Extended(s: Shape, fresh_: seq<int>): Shape { s.(main := s.main + fresh_) }

  /** The headers written on fresh pages: a green chain that nothing points to yet. */
  ghost predicate FreshBlocks(h: Memory, k: Memory, blocks: seq<int>) {
    && Chain(k, blocks)
    && (forall p | p in blocks :: p !in h && p in k && k[p].colour == Green)
    && (forall p :: p in k <==> p in h || p in blocks)
    && (forall p | p in h :: k[p] == h[p])
  }

  lemma ExtendGood(h: Memory, g: Memory, k: Memory, c: Cut, s: Shape, blocks: seq<int>, marked: Colour,
                   unmarked: Colour)
    requires Good(h, c, s, marked, unmarked) && s.retained == |s.main| && blocks != []
    requires FreshBlocks(h, g, blocks) && Joined(g, k, s.main, blocks) && forall p | p in s.whites :: k[p] == g[p]
    ensures Good(k, c.(free := blocks[0], last := blocks[|blocks| - 1],
                       black := if c.last == NULL then blocks[0] else c.black),
                 Extended(s, blocks), marked, unmarked)
  {
    hide Pointers, Coloured;
    ChainFrame(h, g, s.main);
    ChainFrame(h, k, s.whites);
    ChainJoin(g, k, s.main, blocks);
    ExtendColoured(h, g, k, s, blocks, marked, unmarked);
    ExtendPointers(h, c, s, blocks);
    InChain(g, blocks, blocks[0]);
    assert Partition(k, Extended(s, blocks));
  }

  lemma ExtendColoured(h: Memory, g: Memory, k: Memory, s: Shape, blocks: seq<int>, marked: Colour, unmarked: Colour)
    requires Coloured(Colouring(h), s, marked, unmarked) && Partition(h, s) && s.retained == |s.main|
    requires FreshBlocks(h, g, blocks) && Joined(g, k, s.main, blocks) && forall p | p in s.whites :: k[p] == g[p]
    ensures Coloured(Colouring(k), Extended(s, blocks), marked, unmarked)
  {
    var t := Extended(s, blocks);
    forall i: nat | i < |t.main| ensures ColourAt(Colouring(k), t, marked, i) {
      if i < |s.main| {
        assert ColourAt(Colouring(h), s, marked, i) && s.main[i] in s.main;
        var p := s.main[i];
        assert t.main[i] == p && p in h && g[p] == h[p] && k[p].colour == g[p].colour;
      } else {
        var j := i - |s.main|;
        var p := blocks[j];
        assert t.main[i] == p && p in blocks && k[p].colour == g[p].colour;
      }
    }
  }

  lemma ExtendPointers(h: Memory, c: Cut, s: Shape, blocks: seq<int>)
    requires Chain(h, s.main) && Pointers(c, s) && s.retained == |s.main| && blocks != []
    ensures Pointers(c.(free := blocks[0], last := blocks[|blocks| - 1],
                        black := if c.last == NULL then blocks[0] else c.black),
                     Extended(s, blocks))
  {
    if s.main != [] { assert LinkAt(h, s.main, 0) && LinkAt(h, s.main, |s.main| - 1); }
  }

  lemma {:induction false} BlocksIncrease(base: int, size: nat, i: nat, j: nat)
    requires i < j && size > 0
    ensures BlockAt(base, size, i) < BlockAt(base, size, j)
  {
    if i + 1 < j { BlocksIncrease(base, size, i, j - 1); }
  }

  lemma BlocksGrow(base: int, size: nat, i: nat, count: nat)
    requires i < count && size > 0
    ensures Blocks(base, size, i + 1) == Blocks(base, size, i) + [BlockAt(base, size, i)]
    ensures BlockAt(base, size, i) in Blocks(base, size, count)
    ensures BlockAt(base, size, i) !in Blocks(base, size, i)
  {
    assert Blocks(base, size, count)[i] in Blocks(base, size, count);
    forall j: nat | j < i ensures Blocks(base, size, i)[j] != BlockAt(base, size, i) {
      BlocksIncrease(base, size, j, i);
    }
  }

  /** The headers as the loop leaves them: each still points past its own end. */
  ghost predicate RawBlocks(h: Memory, base: int, size: nat, i: nat) {
    forall j: nat | j < i :: RawBlockAt(h, base, size, j)
  }

  predicate RawBlockAt(h: Memory, base: int, size: nat, j: nat) {
    var u := BlockAt(base, size, j);
    u in h && h[u] == Header(if j == 0 then NULL else BlockAt(base, size, j - 1), BlockAt(base, size, j + 1), Green, 0)
  }

  lemma RawBlocksStart(h: Memory, base: int, size: nat)
    ensures RawBlocks(h, base, size, 0)
  {}

  lemma RawBlocksGrow(h: Memory, k: Memory, base: int, size: nat, i: nat)
    requires size > 0 && RawBlocks(h, base, size, i)
    requires var u := BlockAt(base, size, i);
             k == h[u := Header(if i == 0 then NULL else BlockAt(base, size, i - 1), u + size, Green, 0)]
    ensures RawBlocks(k, base, size, i + 1)
  {
    forall j: nat | j < i + 1 ensures RawBlockAt(k, base, size, j) {
      if j < i {
        assert RawBlockAt(h, base, size, j);
        BlocksIncrease(base, size, j, i);
      }
    }
  }

  lemma RawBlocksChain(h: Memory, k: Memory, base: int, size: nat, count: nat)
    requires base >= 0 && count > 0 && size > 0 && RawBlocks(k, base, size, count)
    requires forall p | p in Blocks(base, size, count) :: p !in h
    requires forall p :: p in k <==> p in h || p in Blocks(base, size, count)
    requires forall p | p in h :: k[p] == h[p]
    ensures var u := BlockAt(base, size, count - 1);
            u in k && FreshBlocks(h, SetNext(k, u, NULL), Blocks(base, size, count))
  {
    var b := Blocks(base, size, count);
    RawChain(k, base, size, count);
    hide Chain, RawBlocks, BlockAt;
    forall p | p in b ensures p !in h && p in k && SetNext(k, BlockAt(base, size, count - 1), NULL)[p].colour == Green {
      var j: nat :| j < count && b[j] == p;
      RawLink(k, base, size, count, j);
    }
    assert b[count - 1] in b;
  }

  lemma RawChain(k: Memory, base: int, size: nat, count: nat)
    requires base >= 0 && count > 0 && size > 0 && RawBlocks(k, base, size, count)
    ensures var u := BlockAt(base, size, count - 1);
            u in k && Chain(SetNext(k, u, NULL), Blocks(base, size, count))
  {
    var b := Blocks(base, size, count);
    assert RawBlockAt(k, base, size, count - 1);
    var g := SetNext(k, BlockAt(base, size, count - 1), NULL);
    hide RawBlocks, BlockAt, LinkAt;
    forall i, j | 0 <= i < j < count ensures b[i] != b[j] { BlocksIncrease(base, size, i, j); }
    forall j: nat | j < count ensures LinkAt(g, b, j) {
      RawLink(k, base, size, count, j);
    }
  }

  lemma RawLink(k: Memory, base: int, size: nat, count: nat, j: nat)
    requires base >= 0 && j < count && size > 0 && RawBlocks(k, base, size, count)
    ensures var u := BlockAt(base, size, count - 1);
            var b := Blocks(base, size, count);
            u in k && LinkAt(SetNext(k, u, NULL), b, j) && SetNext(k, u, NULL)[b[j]].colour == Green
  {
    assert RawBlockAt(k, base, size, j) && RawBlockAt(k, base, size, count - 1);
    if j > 0 { BlocksIncrease(base, size, 0, j); }
    if j + 1 < count { BlocksIncrease(base, size, j, count - 1); }
  }

  lemma NoFreeLinked(h: Memory, c: Cut, s: Shape, marked: Colour, unmarked: Colour)
    requires Good(h, c, s, marked, unmarked) && c.free == NULL
    ensures s.retained == |s.main| && c.last == At(s.main, |s.main| - 1)
    ensures Linkable(h, s.main, s.whites)
  {
    assert s.retained < |s.main| ==> LinkAt(h, s.main, s.retained);
    ChainMembers(h, s.main);
    ChainMembers(h, s.whites);
  }

  lemma FreshLinkable(h: Memory, g: Memory, s: Shape, blocks: seq<int>, base: int, size: nat, count: nat)
    requires FreshBlocks(h, g, blocks) && Linkable(h, s.main, s.whites) && blocks == Blocks(base, size, count)
    requires count > 0
    ensures blocks[0] == base && base in g
    ensures s.main != [] ==> s.main[|s.main| - 1] in g && s.main[|s.main| - 1] != NULL && s.main[|s.main| - 1] != base
    ensures var k := if s.main == [] then g
                     else SetNext(SetPrev(g, base, s.main[|s.main| - 1]), s.main[|s.main| - 1], base);
            && Joined(g, k, s.main, blocks) && (forall p | p in s.main :: p in h)
            && (forall p | p in h && p !in s.main :: p in k && k[p] == g[p])
            && (forall p | p in s.whites :: p in k && k[p] == g[p])
  {
    ChainFrame(h, g, s.main);
    assert blocks[0] in blocks && LinkAt(g, blocks, 0);
    if s.main != [] { assert s.main[|s.main| - 1] in s.main && LinkAt(g, s.main, |s.main| - 1); }
    forall i | 0 <= i < |s.main| ensures s.main[i] !in blocks { assert s.main[i] in s.main && s.main[i] in h; }
  }

  lemma ExtendClasses(h: Memory, g: Memory, k: Memory, main: seq<int>, blocks: seq<int>)
    requires FreshBlocks(h, g, blocks) && Joined(g, k, main, blocks) && (forall p | p in main :: p in h)
    requires forall p | p in h && p !in main :: p in k && k[p] == g[p]
    ensures SameClasses(h, k)
  {
    forall p | p in h && p in k ensures k[p].class_ == h[p].class_ {
      assert g[p] == h[p];
      if p in main {
        var i :| 0 <= i < |main| && main[i] == p;
        assert k[main[i]].class_ == g[main[i]].class_;
      }
    }
  }

  lemma ExtendColours(h: Memory, g: Memory, k: Memory, main: seq<int>, blocks: seq<int>)
    requires FreshBlocks(h, g, blocks) && Joined(g, k, main, blocks) && (forall p | p in main :: p in h)
    requires forall p | p in h && p !in main :: p in k && k[p] == g[p]
    ensures Colouring(k) == Colouring(h) + Greens(blocks)
  {
    forall p | p in blocks ensures k[p].colour == Green {
      var i :| 0 <= i < |blocks| && blocks[i] == p;
      assert k[blocks[i]].colour == g[blocks[i]].colour;
    }
    forall p | p in main ensures k[p].colour == h[p].colour {
      var i :| 0 <= i < |main| && main[i] == p;
      assert p in h && g[p] == h[p] && k[main[i]].colour == g[main[i]].colour;
    }
    forall p | p in h && p !in main ensures k[p].colour == h[p].colour { assert g[p] == h[p]; }
    forall p ensures p in k.Keys <==> p in h.Keys + Greens(blocks).Keys { assert p in k <==> p in g; }
  }

  /** What init_pages_for_group's writes do once the fresh chain is laid out. */
  lemma FreshGood(h: Memory, g: Memory, c: Cut, s: Shape, base: int, size: nat, count: nat, marked: Colour,
                  unmarked: Colour)
    requires Good(h, c, s, marked, unmarked) && c.free == NULL && count > 0
    requires FreshBlocks(h, g, Blocks(base, size, count))
    ensures base in g && (c.last != NULL ==> c.last in g && c.last != base)
    ensures var blocks := Blocks(base, size, count);
            var k := if c.last == NULL then g else SetNext(SetPrev(g, base, c.last), c.last, base);
            && Good(k, c.(free := base, last := BlockAt(base, size, count - 1),
                          black := if c.last == NULL then base else c.black), Extended(s, blocks), marked, unmarked)
            && Colouring(k) == Colouring(h) + Greens(blocks) && SameClasses(h, k)
  {
    hide Good, Colouring, FreshBlocks, Joined, Linkable, Greens, SameClasses, BlockAt;
    var blocks := Blocks(base, size, count);
    NoFreeLinked(h, c, s, marked, unmarked);
    FreshLinkable(h, g, s, blocks, base, size, count);
    var k := if c.last == NULL then g else SetNext(SetPrev(g, base, c.last), c.last, base);
    ExtendGood(h, g, k, c, s, blocks, marked, unmarked);
    ExtendColours(h, g, k, s.main, blocks);
    ExtendClasses(h, g, k, s.main, blocks);
  }

  class Group {
    const size: nat
    var hdr: Memory
    var gray: int
    var black: int
    var free: int
    var last: int
    var white: int
    var whiteCount: int
    var blackScannedCount: int
    var blackAllocCount: int
    ghost var shape: Shape

    ghost predicate Valid(marked: Colour, unmarked: Colour)
      reads this
    {
      && Good(hdr, Cut(gray, black, free, last, white), shape, marked, unmarked)
      && whiteCount == |shape.whites|
      && blackScannedCount + blackAllocCount == shape.retained - shape.grays
    }

    /** init_group_info */
    constructor (size: nat, ghost marked: Colour, ghost unmarked: Colour)
      requires Generation(marked) && Generation(unmarked) && marked != unmarked
      ensures Valid(marked, unmarked) && hdr == map[] && shape == Shape([], 0, 0, []) && this.size == size
    {
      this.size := size;
      hdr := map[];
      gray, black, free, last, white := NULL, NULL, NULL, NULL, NULL;
      whiteCount, blackScannedCount, blackAllocCount := 0, 0, 0;
      shape := Shape([], 0, 0, []);
    }

    /** Remove current from the white space. */
    method UnlinkWhite(current: int)
      requires Linked(hdr, current)
      modifies this`hdr, this`white
      ensures hdr == Unlink(old(hdr), current) && hdr.Keys == old(hdr).Keys
      ensures white == if current == old(white) then old(hdr)[current].next else old(white)
    {
      var prev, next := hdr[current].prev, hdr[current].next;
      if current == white { white := next; }
      if prev != NULL { hdr := SetNext(hdr, prev, next); }
      if next != NULL { hdr := SetPrev(hdr, next, prev); }
    }

    /** Link current onto the gray end of the main chain. */
    method LinkGray(current: int)
      requires current in hdr && current != NULL
      requires gray != NULL ==> gray in hdr && gray != current && black != NULL
      requires black != NULL ==> black in hdr && black != current
      modifies this`hdr, this`gray, this`black, this`last
      ensures var head := if old(gray) == NULL then old(black) else old(gray);
              hdr == PushGray(old(hdr), current, head)
      ensures gray == current
      ensures black == (if old(black) == NULL then current else old(black))
      ensures last == (if old(black) == NULL then current else old(last))
    {
      hdr := SetPrev(hdr, current, NULL);
      if gray == NULL {
        hdr := SetNext(hdr, current, black);
        if black == NULL {
          black := current;
          last := current;
        } else {
          hdr := SetPrev(hdr, black, current);
        }
      } else {
        hdr := SetNext(hdr, current, gray);
        hdr := SetPrev(hdr, gray, current);
      }
      hdr := SetColour(hdr, current, Gray);
      gray := current;
    }

    /** The two halves of graying: out of the white chain, in at the gray end. */
    method Relink(current: int, ghost head: int)
      requires Linked(hdr, current) && head == (if gray == NULL then black else gray)
      requires gray != NULL ==> gray in hdr && gray != current && black != NULL
      requires black != NULL ==> black in hdr && black != current
      modifies this`hdr, this`gray, this`black, this`last, this`white
      ensures hdr == PushGray(Unlink(old(hdr), current), current, head)
      ensures Cut(gray, black, free, last, white)
              == GrayedCut(old(hdr), old(Cut(gray, black, free, last, white)), current)
    {
      hide PushGray, Unlink;
      UnlinkWhite(current);
      LinkGray(current);
    }

    /** RTmake_object_gray, whose callers have tested WHITEP. */
    method MakeGray(current: int, ghost k: nat, ghost marked: Colour, ghost unmarked: Colour)
      requires Valid(marked, unmarked) && k < |shape.whites| && shape.whites[k] == current
      modifies this
      ensures Valid(marked, unmarked)
      ensures shape == Grayed(old(shape), k, current)
      ensures Colouring(hdr) == Shade(old(Colouring(hdr)), unmarked, current)
      ensures SameClasses(old(hdr), hdr)
    {
      hide Good, Colouring, Shade, SameClasses, PushGray, Unlink, Grayed;
      ghost var h, s, c := hdr, shape, Cut(gray, black, free, last, white);
      WhiteLinked(h, c, s, k, marked, unmarked);
      Relink(current, At(s.main, 0));
      whiteCount := whiteCount - 1;
      shape := Grayed(s, k, current);
      GrayGood(h, c, s, k, marked, unmarked);
    }

    /** RTallocate inside the free_lock, with memory on the free list. */
    method Allocate(class_: int, marked: Colour, ghost unmarked: Colour) returns (new_: int)
      requires Valid(marked, unmarked) && free != NULL
      modifies this
      ensures Valid(marked, unmarked)
      ensures old(shape).retained < |old(shape).main| && new_ == old(shape).main[old(shape).retained]
      ensures shape == old(shape).(retained := old(shape).retained + 1)
      ensures Colouring(hdr) == Blacken(old(Colouring(hdr)), marked, new_)
      ensures new_ in hdr && hdr[new_].class_ == class_
      ensures blackAllocCount == old(blackAllocCount) + 1 && blackScannedCount == old(blackScannedCount)
      ensures forall p | p in old(hdr) && p != new_ :: p in hdr && hdr[p].class_ == old(hdr)[p].class_
    {
      hide Good, Colouring, Blacken;
      ghost var h, s, c := hdr, shape, Cut(gray, black, free, last, white);
      FreeLinked(h, c, s, marked, unmarked);
      new_ := free;
      free := hdr[new_].next;
      hdr := SetColour(hdr, new_, marked);
      blackAllocCount := blackAllocCount + 1;
      hdr := hdr[new_ := hdr[new_].(class_ := class_)];
      shape := s.(retained := s.retained + 1);
      AllocGood(h, hdr, class_, c, s, marked, unmarked);
    }

    /** The cursor of scan_gray_set: the header it scans next, or NULL. */
    method NextToScan(ghost marked: Colour, ghost unmarked: Colour) returns (current: int)
      requires Valid(marked, unmarked)
      ensures current == At(shape.main, shape.grays - 1)
    {
      hide Good;
      ScanCursor(hdr, Cut(gray, black, free, last, white), shape, marked, unmarked);
      current := black;
      if current != NULL && hdr[current].colour != Gray {
        current := hdr[current].prev;
      }
    }

    /** The end of scan_object_with_group, after the body has been scanned. */
    method Scanned(current: int, marked: Colour, ghost unmarked: Colour)
      requires Valid(marked, unmarked) && shape.grays > 0 && current == At(shape.main, shape.grays - 1)
      modifies this
      ensures Valid(marked, unmarked)
      ensures shape == old(shape).(grays := old(shape).grays - 1)
      ensures blackScannedCount == old(blackScannedCount) + 1 && blackAllocCount == old(blackAllocCount)
      ensures Colouring(hdr) == Blacken(old(Colouring(hdr)), marked, current)
      ensures SameClasses(old(hdr), hdr)
      ensures current in hdr && hdr[current].prev == At(shape.main, shape.grays - 1)
    {
      hide Good, Colouring, Blacken;
      ghost var h, s, c := hdr, shape, Cut(gray, black, free, last, white);
      GrayLinked(h, c, s, marked, unmarked);
      hdr := SetColour(hdr, current, marked);
      black := current;
      blackScannedCount := blackScannedCount + 1;
      shape := s.(grays := s.grays - 1);
      BlackenGood(h, hdr, c, s, marked, unmarked);
    }

    /** The body of flip's loop; the caller swaps the two colours before anyone looks at them again. */
    method Flip(ghost marked: Colour, ghost unmarked: Colour)
      requires Valid(marked, unmarked) && shape.grays == 0 && shape.whites == []
      modifies this
      ensures Valid(unmarked, marked)
      ensures shape == Flipped(old(shape)) && blackScannedCount == blackAllocCount == 0
      ensures Colouring(hdr) == old(Colouring(hdr)) && SameClasses(old(hdr), hdr)
    {
      hide Good, Colouring, SameClasses, CutBefore;
      ghost var h, s, c := hdr, shape, Cut(gray, black, free, last, white);
      CutLinks(marked, unmarked);
      white := if black == free then NULL else black;
      black := free;
      gray := NULL;
      whiteCount := blackScannedCount + blackAllocCount;
      blackScannedCount, blackAllocCount := 0, 0;
      shape := Flipped(s);
      FlipGood(h, hdr, c, s, marked, unmarked);
      CutClasses(h, hdr, s.main, s.retained);
    }

    /** End the black set in front of the free list. */
    method CutLinks(ghost marked: Colour, ghost unmarked: Colour)
      requires Valid(marked, unmarked)
      modifies this`hdr, this`last
      ensures shape.retained <= |shape.main| && CutBefore(old(hdr), hdr, shape.main, shape.retained)
      ensures last == if free == NULL then NULL else old(last)
    {
      hide Good;
      FlipLinked(hdr, Cut(gray, black, free, last, white), shape, marked, unmarked);
      if free != NULL {
        var prev := hdr[free].prev;
        if prev != NULL { hdr := SetNext(hdr, prev, NULL); }
        hdr := SetPrev(hdr, free, NULL);
      } else {
        if last != NULL { hdr := SetNext(hdr, last, NULL); }
        last := NULL;
      }
    }

    /** recycle_group_garbage; count is what the debugging build compares with white_count. */
    method Recycle(ghost marked: Colour, ghost unmarked: Colour) returns (count: int)
      requires Valid(marked, unmarked) && shape.grays == 0
      modifies this
      ensures Valid(marked, unmarked)
      ensures shape == RecycledShape(old(shape))
      ensures Colouring(hdr) == Recycled(old(Colouring(hdr)), unmarked) && SameClasses(old(hdr), hdr)
      ensures count == old(whiteCount)
    {
      hide Good, Colouring, Recycled, Greened, Joined, Linkable, SameClasses;
      ghost var h, s, c := hdr, shape, Cut(gray, black, free, last, white);
      WhitesLinked(h, c, s, marked, unmarked);
      var tail: int;
      count, tail := GreenWhites(marked, unmarked);
      ghost var g := hdr;
      GreenedLinkable(h, g, s.main, s.whites);
      if tail != NULL { JoinWhites(tail); }
      white := NULL;
      whiteCount := 0;
      shape := RecycledShape(s);
      RecycleGood(h, g, hdr, c, s, marked, unmarked);
      RecycleClasses(h, g, hdr, s.main, s.whites);
    }

    /** Walk the white chain, turning it green; tail is its last header. */
    method GreenWhites(ghost marked: Colour, ghost unmarked: Colour) returns (count: int, tail: int)
      requires Valid(marked, unmarked)
      modifies this`hdr
      ensures Greened(old(hdr), hdr, shape.whites, |shape.whites|)
      ensures count == |shape.whites| && tail == At(shape.whites, |shape.whites| - 1)
      ensures tail == NULL <==> shape.whites == []
    {
      ghost var ws := shape.whites;
      hide Good;
      WhitesLinked(hdr, Cut(gray, black, free, last, white), shape, marked, unmarked);
      count, tail := 0, NULL;
      assert ws != [] ==> ws[0] in ws && ws[|ws| - 1] in ws;
      var next := white;
      while next != NULL
        invariant 0 <= count <= |ws| && shape.whites == ws
        invariant next == At(ws, count) && tail == At(ws, count - 1) && (next == NULL ==> count == |ws|)
        invariant Greened(old(hdr), hdr, ws, count)
        decreases |ws| - count
      {
        assert LinkAt(old(hdr), ws, count);
        hdr := SetColour(hdr, next, Green);
        tail := next;
        next := hdr[next].next;
        count := count + 1;
        assert ws[..count] == ws[..count - 1] + [tail];
        assert count < |ws| ==> ws[count] in ws;
      }
    }

    /** Append the white chain, now green, to the main chain. */
    method JoinWhites(tail: int)
      requires Linkable(hdr, shape.main, shape.whites) && shape.whites != []
      requires white == shape.whites[0] && tail == At(shape.whites, |shape.whites| - 1)
      requires last == At(shape.main, |shape.main| - 1)
      modifies this`hdr, this`free, this`black, this`last
      ensures Joined(old(hdr), hdr, shape.main, shape.whites)
      ensures free == (if old(free) == NULL then white else old(free))
      ensures black == (if old(black) == NULL then white else old(black))
      ensures last == tail
    {
      hide Chain, Joined;
      JoinsLinks(hdr, shape.main, shape.whites);
      hdr := SetNext(hdr, tail, NULL);
      if free == NULL { free := white; }
      if black == NULL { black := white; }
      if last != NULL { hdr := SetNext(hdr, last, white); }
      hdr := SetPrev(hdr, white, last);
      last := tail;
    }

    /** The header loop of init_pages_for_group: a green chain of count blocks from base on. */
    method LayOut(base: int, count: nat) returns (current: int)
      requires base >= 0 && count > 0 && size > 0 && forall p | p in Blocks(base, size, count) :: p !in hdr
      modifies this`hdr
      ensures FreshBlocks(old(hdr), hdr, Blocks(base, size, count))
      ensures current == BlockAt(base, size, count - 1)
    {
      hide RawBlocks, FreshBlocks;
      RawBlocksStart(hdr, base, size);
      current := NULL;
      var next, i := base, 0;
      while i < count
        invariant 0 <= i <= count
        invariant current == (if i == 0 then NULL else BlockAt(base, size, i - 1)) && next == BlockAt(base, size, i)
        invariant forall p :: p in hdr <==> p in old(hdr) || p in Blocks(base, size, i)
        invariant forall p | p in old(hdr) :: hdr[p] == old(hdr)[p]
        invariant RawBlocks(hdr, base, size, i)
      {
        ghost var h := hdr;
        BlocksGrow(base, size, i, count);
        var prev := current;
        current := next;
        next := current + size;
        hdr := hdr[current := Header(prev, next, Green, 0)];
        RawBlocksGrow(h, hdr, base, size, i);
        i := i + 1;
      }
      RawBlocksChain(old(hdr), hdr, base, size, count);
      hdr := SetNext(hdr, current, NULL);
    }

    /** Append the fresh chain from base to current_ to the main chain. */
    method LinkFresh(base: int, current_: int)
      requires base in hdr && (last != NULL ==> last in hdr && last != base)
      modifies this`hdr, this`free, this`black, this`last
      ensures hdr == if old(last) == NULL then old(hdr)
                     else SetNext(SetPrev(old(hdr), base, old(last)), old(last), base)
      ensures free == base && last == current_
      ensures black == if old(last) == NULL then base else old(black)
    {
      free := base;
      if last == NULL {
        black := base;
      } else {
        hdr := SetPrev(hdr, base, last);
        hdr := SetNext(hdr, last, base);
      }
      last := current_;
    }

    /** init_pages_for_group once it has its pages; the caller holds the free_lock and free is NULL. */
    method InitPages(base: int, count: nat, ghost marked: Colour, ghost unmarked: Colour)
      requires Valid(marked, unmarked) && free == NULL
      requires base >= 0 && count > 0 && size > 0 && forall p | p in Blocks(base, size, count) :: p !in hdr
      modifies this
      ensures Valid(marked, unmarked)
      ensures shape == Extended(old(shape), Blocks(base, size, count))
      ensures Colouring(hdr) == old(Colouring(hdr)) + Greens(Blocks(base, size, count))
      ensures SameClasses(old(hdr), hdr)
    {
      ghost var h, s, c := hdr, shape, Cut(gray, black, free, last, white);
      ghost var blocks := Blocks(base, size, count);
      hide Good, Colouring, FreshBlocks, Greens, SameClasses, BlockAt;
      NoFreeLinked(h, c, s, marked, unmarked);
      var current := LayOut(base, count);
      FreshGood(h, hdr, c, s, base, size, count, marked, unmarked);
      LinkFresh(base, current);
      shape := Extended(s, blocks);
    }

    /** remove_object_from_free_list; the words at object stop being a header. */
    method RemoveFromFreeList(object_: int, ghost k: nat, ghost marked: Colour, ghost unmarked: Colour)
      requires Valid(marked, unmarked) && shape.grays == 0
      requires shape.retained <= k < |shape.main| && shape.main[k] == object_
      modifies this
      ensures Valid(marked, unmarked)
      ensures shape == Dropped(old(shape), k)
      ensures Colouring(hdr) == old(Colouring(hdr)) - {object_} && SameClasses(old(hdr), hdr)
    {
      hide Good, Colouring, Drop, SameClasses;
      ghost var h, s, c := hdr, shape, Cut(gray, black, free, last, white);
      DropGood(h, c, s, k, marked, unmarked);
      UnlinkClasses(h, object_);
      UnlinkFree(object_);
      hdr := hdr - {object_};
      shape := Dropped(s, k);
    }

    /** The pointer surgery of remove_object_from_free_list. */
    method UnlinkFree(object_: int)
      requires Linked(hdr, object_)
      modifies this`hdr, this`free, this`black, this`last
      ensures hdr == Unlink(old(hdr), object_)
      ensures Cut(gray, black, free, last, white) ==
              DroppedCut(old(hdr), old(Cut(gray, black, free, last, white)), object_)
    {
      var prev, next := hdr[object_].prev, hdr[object_].next;
      if object_ == free { free := next; }
      if object_ == black { black := next; }
      if object_ == last { last := if next == NULL then prev else next; }
      if prev != NULL { hdr := SetNext(hdr, prev, next); }
      if next != NULL { hdr := SetPrev(hdr, next, prev); }
    }
  }
}
