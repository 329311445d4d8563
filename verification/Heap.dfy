/**
 The page table, the hole list and the size groups together: committing pages to a group
 and giving the pages of all-green blocks back.
 */
module Heaps {
  import opened Colours
  import opened Links
  import opened GroupList
  import opened Pages
  import opened PageTables
  import opened Layout

  /** Every object of the block that starts at page p is free. */
  predicate AllGreen(colour: map<int, Colour>, p: int, c: int)
    requires IsGroup(c)
  {
    forall a | a in HeadersOn(p, c) :: a in colour && colour[a] == Green
  }

  predicate IsBlock(code: seq<int>, base: seq<int>, p: int, c: int) {
    IsGroup(c) && |code| == |base| && 0 <= p < |code| && code[p] == c && base[p] == p
  }

  // ---------------------------------------------------------------- a block leaves its group

  /** Only the entries of the block's own pages change, and its owner becomes FREE. */
  ghost predicate Released(code: seq<int>, base: seq<int>, p: int, c: int, code': seq<int>, base': seq<int>)
    requires IsGroup(c)
  {
    && code' == Filled(code, p, PagesPerBlock(c), FREE_PAGE) && |base'| == |base|
    && forall q | 0 <= q < |base| && !(p <= q < p + PagesPerBlock(c)) :: base'[q] == base[q]
  }

  lemma BlocksDisjoint(code: seq<int>, base: seq<int>, p: int, c: int, q: int)
    requires Owned(code, base) && IsBlock(code, base, p, c) && 0 <= q < |code| && IsGroup(code[q])
    ensures BlockOfPages(code, base, p, c)
    ensures p <= q < p + PagesPerBlock(c) <==> base[q] == p
  {
    assert OwnedPage(code, base, p) && OwnedPage(code, base, q);
  }

  lemma ReleaseOwned(code: seq<int>, base: seq<int>, p: int, c: int, code': seq<int>, base': seq<int>)
    requires Owned(code, base) && IsBlock(code, base, p, c) && Released(code, base, p, c, code', base')
    ensures Owned(code', base')
  {
    forall q | 0 <= q < |code'| ensures OwnedPage(code', base', q) {
      if IsGroup(code'[q]) {
        BlocksDisjoint(code, base, p, c, q);
        assert OwnedPage(code, base, q);
        var b := base[q];
        forall r | b <= r < b + PagesPerBlock(code[q]) ensures code'[r] == code[q] && base'[r] == b {
          BlocksDisjoint(code, base, p, c, r);
        }
      }
    }
  }

  lemma ReleaseKeyed(code: seq<int>, base: seq<int>, p: int, c: int, code': seq<int>, base': seq<int>, d: int,
                     colour: map<int, Colour>)
    requires Owned(code, base) && IsBlock(code, base, p, c) && Released(code, base, p, c, code', base')
    requires IsGroup(d) && Keyed(code, base, d, colour)
    ensures Keyed(code', base', d, if d == c then colour - Elements(HeadersOn(p, c)) else colour)
  {
    var colour' := if d == c then colour - Elements(HeadersOn(p, c)) else colour;
    HeadersOnFirstPage(p, c);
    BlocksDisjoint(code, base, p, c, p);
    BlockIsFull(c);
    forall a ensures a in colour' <==> HeaderAt(code', base', d, a) {
      var q := PageOf(a);
      if HeaderAt(code, base, d, a) {
        BlocksDisjoint(code, base, p, c, q);
      }
      if HeaderAt(code', base', d, a) {
        assert code'[q] == d;
        assert !(p <= q < p + PagesPerBlock(c));
        assert HeaderAt(code, base, d, a);
      }
    }
  }

  // ---------------------------------------------------------------- a block joins a group

  lemma CommitOwned(code: seq<int>, base: seq<int>, p: int, c: int)
    requires Owned(code, base) && IsGroup(c) && EmptyRun(code, p, PagesPerBlock(c))
    ensures Owned(Filled(code, p, PagesPerBlock(c), c), Filled(base, p, PagesPerBlock(c), p))
  {
    var code', base' := Filled(code, p, PagesPerBlock(c), c), Filled(base, p, PagesPerBlock(c), p);
    forall q | 0 <= q < |code'| ensures OwnedPage(code', base', q) {
      if IsGroup(code'[q]) && !(p <= q < p + PagesPerBlock(c)) {
        assert OwnedPage(code, base, q);
        forall r | base[q] <= r < base[q] + PagesPerBlock(code[q]) ensures code'[r] == code[q] && base'[r] == base[q] {
          assert code[r] != EMPTY_PAGE;
        }
      }
    }
  }

  lemma CommitHeader(code: seq<int>, base: seq<int>, p: int, c: int, d: int, a: int)
    requires |code| == |base| && IsGroup(c) && IsGroup(d) && EmptyRun(code, p, PagesPerBlock(c))
    ensures HeaderAt(Filled(code, p, PagesPerBlock(c), c), Filled(base, p, PagesPerBlock(c), p), d, a) <==>
            HeaderAt(code, base, d, a) || (d == c && a in HeadersOn(p, c))
  {
    HeadersOnFirstPage(p, c);
    BlockIsFull(c);
    var q := PageOf(a);
    if 0 <= a && p <= q < p + PagesPerBlock(c) {
      assert code[q] == EMPTY_PAGE;
      assert Filled(base, p, PagesPerBlock(c), p)[q] == p;
    }
  }

  lemma CommitKeyed(code: seq<int>, base: seq<int>, p: int, c: int, d: int, colour: map<int, Colour>)
    requires Owned(code, base) && IsGroup(c) && EmptyRun(code, p, PagesPerBlock(c)) && IsGroup(d)
    requires Keyed(code, base, d, colour)
    ensures Keyed(Filled(code, p, PagesPerBlock(c), c), Filled(base, p, PagesPerBlock(c), p), d,
                  if d == c then colour + Greens(HeadersOn(p, c)) else colour)
    ensures forall a | a in HeadersOn(p, c) :: a !in colour
  {
    var code', base' := Filled(code, p, PagesPerBlock(c), c), Filled(base, p, PagesPerBlock(c), p);
    var colour' := if d == c then colour + Greens(HeadersOn(p, c)) else colour;
    HeadersOnFirstPage(p, c);
    BlockIsFull(c);
    assert code[p] == EMPTY_PAGE;
    forall a ensures a in colour' <==> HeaderAt(code', base', d, a) {
      CommitHeader(code, base, p, c, d, a);
    }
  }

  // ---------------------------------------------------------------- removing a block's headers

  /** A green header is somewhere in the free part of the main chain. */
  lemma GreenPlace(g: Group, col: map<int, Colour>, p: int, c: int, i: nat, marked: Colour, unmarked: Colour)
    returns (k: nat)
    requires IsGroup(c) && g.Valid(marked, unmarked) && AllGreen(col, p, c) && i < ObjectsPerBlock(c)
    requires Colouring(g.hdr) == col - Elements(HeadersOn(p, c)[..i])
    ensures HeadersOn(p, c)[i] == BlockAt(PageStart(p), Pow2(c), i)
    ensures g.shape.retained <= k < |g.shape.main| && g.shape.main[k] == HeadersOn(p, c)[i]
    ensures Elements(HeadersOn(p, c)[..i + 1]) == Elements(HeadersOn(p, c)[..i]) + {HeadersOn(p, c)[i]}
  {
    var s := HeadersOn(p, c);
    var u := s[i];
    assert u in s;
    assert s[..i + 1] == s[..i] + [u];
    forall j: nat | j < i ensures s[j] != u { BlocksIncrease(PageStart(p), Pow2(c), j, i); }
    assert u in Colouring(g.hdr);
    ColourIsPlace(g.hdr, Cut(g.gray, g.black, g.free, g.last, g.white), g.shape, marked, unmarked, u);
    var j :| 0 <= j < |g.shape.main[g.shape.retained..]| && g.shape.main[g.shape.retained..][j] == u;
    k := g.shape.retained + j;
  }

  /** remove all objects of a block from the free list of its group. */
  method RemoveBlock(g: Group, p: int, c: int, marked: Colour, unmarked: Colour)
    requires IsGroup(c) && g.size == Pow2(c) && g.Valid(marked, unmarked) && g.shape.grays == 0
    requires AllGreen(Colouring(g.hdr), p, c)
    modifies g
    ensures g.Valid(marked, unmarked) && g.shape.grays == 0 && g.shape.whites == old(g.shape.whites)
    ensures Colouring(g.hdr) == old(Colouring(g.hdr)) - Elements(HeadersOn(p, c))
  {
    hide Good, Colouring, Group.Valid;
    ghost var col, headers := Colouring(g.hdr), HeadersOn(p, c);
    BlockIsFull(c);
    var count, i, object_ := ObjectsPerBlock(c), 0, PageStart(p);
    assert Elements(headers[..0]) == {};
    while i < count
      invariant 0 <= i <= count && object_ == BlockAt(PageStart(p), Pow2(c), i)
      invariant g.Valid(marked, unmarked) && g.shape.grays == 0 && g.shape.whites == old(g.shape.whites)
      invariant Colouring(g.hdr) == col - Elements(headers[..i])
    {
      ghost var k := GreenPlace(g, col, p, c, i, marked, unmarked);
      g.RemoveFromFreeList(object_, k, marked, unmarked);
      object_ := object_ + g.size;
      i := i + 1;
    }
    assert headers[..i] == headers;
  }

  lemma BlockLimit(p: int, c: int, i: nat)
    requires IsGroup(c) && c <= 12 && i <= ObjectsPerBlock(c)
    ensures BlockAt(PageStart(p), Pow2(c), i) < PageStart(p) + BYTES_PER_PAGE <==> i < ObjectsPerBlock(c)
  {
    var n, size := ObjectsPerBlock(c), Pow2(c);
    BlockIsFull(c);
    BlockAtIs(PageStart(p), size, i);
    if i < n { InBlock(i, n, size); }
  }

  /** all_green_page: walk the page until a header is not green. */
  method AllGreenPage(g: Group, p: int, c: int) returns (allGreen: bool)
    requires IsGroup(c) && c <= 12 && g.size == Pow2(c) && forall a | a in HeadersOn(p, c) :: a in g.hdr
    ensures allGreen <==> AllGreen(Colouring(g.hdr), p, c)
  {
    ghost var headers := HeadersOn(p, c);
    var nextObject := PageStart(p);
    ghost var i: nat := 0;
    allGreen := true;
    BlockLimit(p, c, 0);
    while allGreen && nextObject < PageStart(p) + BYTES_PER_PAGE
      invariant i <= |headers| && nextObject == BlockAt(PageStart(p), Pow2(c), i)
      invariant nextObject < PageStart(p) + BYTES_PER_PAGE <==> i < |headers|
      invariant forall j | 0 <= j < i :: headers[j] in g.hdr && g.hdr[headers[j]].colour == Green
      invariant !allGreen ==> i < |headers| && headers[i] in g.hdr && g.hdr[headers[i]].colour != Green
      decreases |headers| - i, allGreen
    {
      assert headers[i] in headers;
      if g.hdr[nextObject].colour == Green {
        BlockLimit(p, c, i + 1);
        nextObject := nextObject + g.size;
        i := i + 1;
      } else {
        allGreen := false;
      }
    }
    assert !allGreen ==> headers[i] in headers;
  }

  // ---------------------------------------------------------------- the sweep over the page table

  type Colourings = seq<map<int, Colour>>

  /** The page table and the groups' headers agree; colours[c - 5] belongs to group c. */
  ghost predicate Keys(code: seq<int>, base: seq<int>, colours: Colourings) {
    && |colours| == 20 && Owned(code, base)
    && (forall p | 0 <= p < |code| :: code[p] <= EXTERNAL_PAGE || IsGroup(code[p]))
    && forall c | IsGroup(c) :: Keyed(code, base, c, colours[c - MIN_GROUP_INDEX])
  }

  /** Every page is empty or a group's. */
  predicate Assigned(code: seq<int>) {
    forall p | 0 <= p < |code| :: code[p] == EMPTY_PAGE || IsGroup(code[p])
  }

  /** No object on the page is allocated. */
  predicate Unused(code: seq<int>, base: seq<int>, colours: Colourings, p: int)
    requires |code| == |base| && 0 <= p < |code| && |colours| == 20
  {
    code[p] == EMPTY_PAGE || code[p] == FREE_PAGE ||
    (IsGroup(code[p]) && AllGreen(colours[code[p] - MIN_GROUP_INDEX], base[p], code[p]))
  }

  predicate SweptPage(code0: seq<int>, base0: seq<int>, colours0: Colourings, code: seq<int>, p: int)
    requires |code0| == |base0| == |code| && 0 <= p < |code| && |colours0| == 20
  {
    code[p] == if IsGroup(code0[p]) && Unused(code0, base0, colours0, p) then FREE_PAGE else code0[p]
  }

  /** identify_free_pages up to page: exactly the unused blocks below it are FREE and no header has changed colour. */
  ghost predicate Swept(code0: seq<int>, base0: seq<int>, colours0: Colourings,
                        code: seq<int>, base: seq<int>, colours: Colourings, page: int) {
    && Keys(code0, base0, colours0) && Keys(code, base, colours) && |code| == |code0| && 0 <= page <= |code|
    && (forall p | 0 <= p < page :: SweptPage(code0, base0, colours0, code, p))
    && (forall p | page <= p < |code| :: code[p] == code0[p])
    && (forall p | 0 <= p < |code| && code[p] == code0[p] :: base[p] == base0[p])
    && (forall i, a | 0 <= i < 20 && a in colours[i] :: a in colours0[i] && colours[i][a] == colours0[i][a])
    && (page < |code| && IsGroup(code0[page]) ==> base0[page] == page)
  }

  lemma SweepStart(code: seq<int>, base: seq<int>, colours: Colourings)
    requires Keys(code, base, colours)
    ensures Swept(code, base, colours, code, base, colours, 0)
  {
    if |code| > 0 { assert OwnedPage(code, base, 0); }
  }

  lemma SameBlock(code: seq<int>, base: seq<int>, p: int, q: int)
    requires Owned(code, base) && 0 <= p < q < |code| && IsGroup(code[q])
    ensures base[q] <= p ==> code[p] == code[q] && base[p] == base[q]
  {
    assert OwnedPage(code, base, q);
  }

  lemma SweepBoundary(code0: seq<int>, base0: seq<int>, page: int, c: int)
    requires Owned(code0, base0) && 0 <= page < |code0|
    requires if IsGroup(code0[page]) then c == code0[page] && base0[page] == page else true
    ensures var next := if IsGroup(code0[page]) then page + PagesPerBlock(code0[page]) else page + 1;
            page < next <= |code0| && (next < |code0| && IsGroup(code0[next]) ==> base0[next] == next)
  {
    var next := if IsGroup(code0[page]) then page + PagesPerBlock(code0[page]) else page + 1;
    assert OwnedPage(code0, base0, page);
    if IsGroup(code0[page]) { BlockIsFull(c); }
    if next < |code0| && IsGroup(code0[next]) {
      assert OwnedPage(code0, base0, next);
      SameBlock(code0, base0, next - 1, next);
    }
  }

  lemma SweepOther(code0: seq<int>, base0: seq<int>, colours0: Colourings, code: seq<int>, base: seq<int>,
                   colours: Colourings, page: int)
    requires Swept(code0, base0, colours0, code, base, colours, page) && page < |code| && !IsGroup(code[page])
    ensures Swept(code0, base0, colours0, code, base, colours, page + 1)
  {
    SweepBoundary(code0, base0, page, 0);
    assert SweptPage(code0, base0, colours0, code, page);
  }

  lemma SweepHeaders(code0: seq<int>, base0: seq<int>, colours0: Colourings, code: seq<int>, base: seq<int>,
                     colours: Colourings, page: int)
    requires Swept(code0, base0, colours0, code, base, colours, page) && page < |code| && IsGroup(code[page])
    ensures IsBlock(code, base, page, code[page]) && BlockOfPages(code, base, page, code[page])
    ensures BlockOfPages(code0, base0, page, code[page])
    ensures var i := code[page] - MIN_GROUP_INDEX;
            && (forall a | a in HeadersOn(page, code[page]) :: a in colours[i])
            && (AllGreen(colours[i], page, code[page]) <==> AllGreen(colours0[i], page, code[page]))
  {
    var c := code[page];
    assert OwnedPage(code0, base0, page) && OwnedPage(code, base, page);
    HeadersOnFirstPage(page, c);
    forall a | a in HeadersOn(page, c) ensures a in colours[c - MIN_GROUP_INDEX] { assert HeaderAt(code, base, c, a); }
  }

  lemma SweepGroup(code0: seq<int>, base0: seq<int>, colours0: Colourings, code: seq<int>, base: seq<int>,
                   colours: Colourings, page: int)
    requires Swept(code0, base0, colours0, code, base, colours, page) && page < |code|
    ensures |code| == |base| && |colours| == 20 && (code[page] > EXTERNAL_PAGE <==> IsGroup(code[page]))
    ensures var c := code[page];
            IsGroup(c) ==>
              && base[page] == page && page + PagesPerBlock(c) <= |code| && PagesPerBlock(c) > 0
              && (forall q | page <= q < page + PagesPerBlock(c) :: code[q] == c)
              && (forall a | a in HeadersOn(page, c) :: a in colours[c - MIN_GROUP_INDEX])
  {
    if IsGroup(code[page]) {
      BlockIsFull(code[page]);
      SweepHeaders(code0, base0, colours0, code, base, colours, page);
    }
  }

  lemma SweepKept(code0: seq<int>, base0: seq<int>, colours0: Colourings, code: seq<int>, base: seq<int>,
                  colours: Colourings, page: int)
    requires Swept(code0, base0, colours0, code, base, colours, page) && page < |code| && IsGroup(code[page])
    requires !AllGreen(colours[code[page] - MIN_GROUP_INDEX], page, code[page])
    ensures Swept(code0, base0, colours0, code, base, colours, page + PagesPerBlock(code[page]))
  {
    SweepHeaders(code0, base0, colours0, code, base, colours, page);
    SweepBoundary(code0, base0, page, code[page]);
  }

  lemma SweepFreed(code0: seq<int>, base0: seq<int>, colours0: Colourings, code: seq<int>, base: seq<int>,
                   colours: Colourings, page: int,
                   code': seq<int>, base': seq<int>, colours': Colourings)
    requires Swept(code0, base0, colours0, code, base, colours, page) && page < |code| && IsGroup(code[page])
    requires var c := code[page];
             var i := c - MIN_GROUP_INDEX;
             && AllGreen(colours[i], page, c) && Released(code, base, page, c, code', base')
             && colours' == colours[i := colours[i] - Elements(HeadersOn(page, c))]
    ensures Swept(code0, base0, colours0, code', base', colours', page + PagesPerBlock(code[page]))
  {
    var c := code[page];
    SweepHeaders(code0, base0, colours0, code, base, colours, page);
    SweepBoundary(code0, base0, page, c);
    ReleaseOwned(code, base, page, c, code', base');
    forall d | IsGroup(d) ensures Keyed(code', base', d, colours'[d - MIN_GROUP_INDEX]) {
      ReleaseKeyed(code, base, page, c, code', base', d, colours[d - MIN_GROUP_INDEX]);
    }
    forall p | 0 <= p < page + PagesPerBlock(c) ensures SweptPage(code0, base0, colours0, code', p) {
      if p < page { assert SweptPage(code0, base0, colours0, code, p); }
    }
  }

  lemma SweepIdentified(code0: seq<int>, base0: seq<int>, colours0: Colourings, code: seq<int>, base: seq<int>,
                        colours: Colourings, page: int,
                        code': seq<int>, base': seq<int>, colours': Colourings)
    requires Swept(code0, base0, colours0, code, base, colours, page) && page < |code| && IsGroup(code[page])
    requires var c := code[page];
             var i := c - MIN_GROUP_INDEX;
             if AllGreen(colours[i], page, c) then
               Released(code, base, page, c, code', base') &&
               colours' == colours[i := colours[i] - Elements(HeadersOn(page, c))]
             else
               code' == code && base' == base && colours' == colours
    ensures Swept(code0, base0, colours0, code', base', colours', page + PagesPerBlock(code[page]))
  {
    SweptKeys(code0, base0, colours0, code, base, colours, page);
    hide Swept, Released, AllGreen, Elements;
    if AllGreen(colours[code[page] - MIN_GROUP_INDEX], page, code[page]) {
      SweepFreed(code0, base0, colours0, code, base, colours, page, code', base', colours');
    } else {
      SweepKept(code0, base0, colours0, code, base, colours, page);
    }
  }

  /** The headers that stay when unused blocks are given up: those of blocks with an allocated object. */
  function Reclaimed(code: seq<int>, base: seq<int>, colours: Colourings): (r: Colourings)
    requires |code| == |base| && |colours| == 20
    ensures |r| == 20
    ensures forall i | 0 <= i < 20 :: r[i] == ReclaimedFrom(code, base, colours, i)
  {
    seq(20, i requires 0 <= i < 20 => ReclaimedFrom(code, base, colours, i))
  }

  function ReclaimedFrom(code: seq<int>, base: seq<int>, colours: Colourings, i: nat): map<int, Colour>
    requires |code| == |base| && |colours| == 20 && i < 20
  {
    map a | a in colours[i] && StaysAt(code, base, colours, PageOf(a)) :: colours[i][a]
  }

  predicate StaysAt(code: seq<int>, base: seq<int>, colours: Colourings, p: int)
    requires |code| == |base| && |colours| == 20
  {
    0 <= p < |code| && !Unused(code, base, colours, p)
  }

  /** What giving up the unused blocks does to the page table and to the headers. */
  ghost predicate Coalesced(code0: seq<int>, base0: seq<int>, colours0: Colourings,
                            code: seq<int>, base: seq<int>, colours: Colourings) {
    && |code0| == |base0| == |code| == |base| && |colours0| == 20
    && (forall p | 0 <= p < |code| :: code[p] == if Unused(code0, base0, colours0, p) then EMPTY_PAGE else code0[p])
    && (forall p | 0 <= p < |code| && code[p] != EMPTY_PAGE :: base[p] == base0[p])
    && colours == Reclaimed(code0, base0, colours0) && Keys(code, base, colours)
  }

  /** When the sweep is over, the unused pages are the EMPTY and the FREE ones. */
  lemma SweepEnd(code0: seq<int>, base0: seq<int>, colours0: Colourings, code: seq<int>, base: seq<int>,
                 colours: Colourings)
    requires Swept(code0, base0, colours0, code, base, colours, |code|)
    ensures forall p | 0 <= p < |code| ::
              code[p] == EMPTY_PAGE || code[p] == FREE_PAGE <==> Unused(code0, base0, colours0, p)
    ensures forall p | 0 <= p < |code| && !Unused(code0, base0, colours0, p) ::
              code[p] == code0[p] && base[p] == base0[p]
  {
    forall p | 0 <= p < |code|
      ensures code[p] == EMPTY_PAGE || code[p] == FREE_PAGE <==> Unused(code0, base0, colours0, p)
      ensures !Unused(code0, base0, colours0, p) ==> code[p] == code0[p] {
      assert SweptPage(code0, base0, colours0, code, p);
    }
  }

  /** The headers left are those of the pages that are still a group's. */
  lemma SweepReclaims(code0: seq<int>, base0: seq<int>, colours0: Colourings, code: seq<int>, base: seq<int>,
                      colours: Colourings)
    requires Swept(code0, base0, colours0, code, base, colours, |code|)
    ensures |code0| == |base0| && |colours0| == 20 && colours == Reclaimed(code0, base0, colours0)
  {
    SweepEnd(code0, base0, colours0, code, base, colours);
    forall i: nat | i < 20 ensures colours[i] == ReclaimedFrom(code0, base0, colours0, i) {
      SweepReclaimsFrom(code0, base0, colours0, code, base, colours, i);
    }
  }

  lemma SweepReclaimsFrom(code0: seq<int>, base0: seq<int>, colours0: Colourings, code: seq<int>, base: seq<int>,
                          colours: Colourings, i: nat)
    requires Swept(code0, base0, colours0, code, base, colours, |code|) && i < 20
    requires forall p | 0 <= p < |code| ::
               code[p] == EMPTY_PAGE || code[p] == FREE_PAGE <==> Unused(code0, base0, colours0, p)
    requires forall p | 0 <= p < |code| && !Unused(code0, base0, colours0, p) ::
               code[p] == code0[p] && base[p] == base0[p]
    ensures colours[i] == ReclaimedFrom(code0, base0, colours0, i)
  {
    var c := i + MIN_GROUP_INDEX;
    assert IsGroup(c) && Keyed(code0, base0, c, colours0[c - MIN_GROUP_INDEX]) &&
           Keyed(code, base, c, colours[c - MIN_GROUP_INDEX]);
    forall a ensures a in colours[i] <==> a in colours0[i] && StaysAt(code0, base0, colours0, PageOf(a)) {
      assert a in colours0[i] <==> HeaderAt(code0, base0, c, a);
      assert a in colours[i] <==> HeaderAt(code, base, c, a);
    }
    var m := ReclaimedFrom(code0, base0, colours0, i);
    assert forall a :: a in colours[i] <==> a in m;
    assert forall a | a in colours[i] :: colours[i][a] == colours0[i][a];
    assert forall a | a in m :: m[a] == colours0[i][a];
    assert colours[i] == m;
  }

  /** Then the FREE pages turn EMPTY. */
  lemma SweepCoalesces(code0: seq<int>, base0: seq<int>, colours0: Colourings, code: seq<int>, base: seq<int>,
                       colours: Colourings, base': seq<int>)
    requires Swept(code0, base0, colours0, code, base, colours, |code|) && |base'| == |base|
    requires forall p | 0 <= p < |code| && code[p] != FREE_PAGE :: base'[p] == base[p]
    ensures Coalesced(code0, base0, colours0, Freed(code, |code|), base', colours)
  {
    SweepEnd(code0, base0, colours0, code, base, colours);
    SweepReclaims(code0, base0, colours0, code, base, colours);
    FreedKeys(code, base, colours, base');
    hide Keys, Keyed, Reclaimed, Unused;
  }

  /** Only headers of unused pages go, so every allocated object stays. */
  lemma AllocatedStay(code: seq<int>, base: seq<int>, colours: Colourings, i: nat, a: int)
    requires Keys(code, base, colours) && i < 20 && a in colours[i] && colours[i][a] != Green
    ensures a in Reclaimed(code, base, colours)[i] && Reclaimed(code, base, colours)[i][a] == colours[i][a]
  {
    var c := i + MIN_GROUP_INDEX;
    assert IsGroup(c) && Keyed(code, base, c, colours[c - MIN_GROUP_INDEX]);
    assert HeaderAt(code, base, c, a);
  }

  /** Turning FREE pages into EMPTY ones concerns no group. */
  lemma FreedKeys(code: seq<int>, base: seq<int>, colours: Colourings, base': seq<int>)
    requires Keys(code, base, colours) && |base'| == |base|
    requires forall p | 0 <= p < |code| && code[p] != FREE_PAGE :: base'[p] == base[p]
    ensures Keys(Freed(code, |code|), base', colours)
  {
    var code' := Freed(code, |code|);
    forall p | 0 <= p < |code| ensures OwnedPage(code', base', p) { assert OwnedPage(code, base, p); }
    forall c | IsGroup(c) ensures Keyed(code', base', c, colours[c - MIN_GROUP_INDEX]) {
      assert Keyed(code, base, c, colours[c - MIN_GROUP_INDEX]);
      forall a ensures HeaderAt(code', base', c, a) <==> HeaderAt(code, base, c, a) {}
    }
  }

  lemma MergedRuns(code0: seq<int>, base0: seq<int>, colours0: Colourings, code: seq<int>, count: seq<int>,
                   live: set<int>)
    requires |code0| == |base0| == |code| && |colours0| == 20 && HolesAreMaximalRuns(code, count, live)
    requires forall p | 0 <= p < |code| :: code[p] == EMPTY_PAGE <==> Unused(code0, base0, colours0, p)
    ensures forall p, n :: MaximalUnused(code0, base0, colours0, p, n) <==>
              p in live && 0 <= p < |count| && n == count[p]
  {
    forall p, n ensures MaximalUnused(code0, base0, colours0, p, n) <==> Maximal(code, p, n) {}
  }

  lemma MergedHoles(code0: seq<int>, base0: seq<int>, colours0: Colourings, code: seq<int>, count: seq<int>,
                    list: seq<int>)
    requires |code0| == |base0| == |code| && |colours0| == 20 && HolesAreMaximalRuns(code, count, Elements(list))
    requires forall p | 0 <= p < |code| :: code[p] == EMPTY_PAGE <==> Unused(code0, base0, colours0, p)
    ensures forall p, n :: MaximalUnused(code0, base0, colours0, p, n) <==>
              p in list && 0 <= p < |count| && n == count[p]
  {
    MergedRuns(code0, base0, colours0, code, count, Elements(list));
  }

  /**
   After coalescing, n pages can be taken exactly when n consecutive pages held no allocated
   object and were not in flight.
   */
  lemma FitsIffUnusedRun(code0: seq<int>, base0: seq<int>, colours0: Colourings,
                         code: seq<int>, count: seq<int>, list: seq<int>, flight: set<int>, n: int, best: int, at: int)
    requires |code0| == |base0| == |code| && |colours0| == 20 && 0 < n
    requires Tiles(code, count, Elements(list), flight)
    requires HolesAreMaximalRuns(Masked(code, flight), count, Elements(list))
    requires forall p | 0 <= p < |code| :: code[p] == EMPTY_PAGE <==> Unused(code0, base0, colours0, p)
    requires BestFit(list, count, n, |list|, best, at)
    ensures best != NULL <==> exists p :: UnusedRun(Masked(code0, flight), base0, colours0, p, n)
  {
    AllocationSucceedsIff(code, count, list, flight, n, best, at);
    MaskedAlike(code0, base0, colours0, code, flight);
    hide Unused, Masked;
    forall p ensures EmptyRun(Masked(code, flight), p, n) <==> UnusedRun(Masked(code0, flight), base0, colours0, p, n) {
    }
  }

  /** A page in flight counts as used. */
  lemma MaskedAlike(code0: seq<int>, base0: seq<int>, colours0: Colourings, code: seq<int>, flight: set<int>)
    requires |code0| == |base0| == |code| && |colours0| == 20
    requires forall p | 0 <= p < |code| :: code[p] == EMPTY_PAGE <==> Unused(code0, base0, colours0, p)
    ensures forall p | 0 <= p < |code| ::
              Masked(code, flight)[p] == EMPTY_PAGE <==> Unused(Masked(code0, flight), base0, colours0, p)
  {
    forall p | 0 <= p < |code|
      ensures Masked(code, flight)[p] == EMPTY_PAGE <==> Unused(Masked(code0, flight), base0, colours0, p) {
      assert p !in flight ==> Masked(code0, flight)[p] == code0[p];
    }
  }

  /** No page without an allocated object lies just before pages in flight. */
  predicate Bounded(code: seq<int>, base: seq<int>, colours: Colourings, flight: set<int>)
    requires |code| == |base| && |colours| == 20
  {
    forall p | p in flight && 0 < p <= |code| :: p - 1 in flight || !Unused(code, base, colours, p - 1)
  }

  /** The holes left by giving up the unused blocks end at no page in flight exactly when no unused page did. */
  lemma ClearIffBounded(code0: seq<int>, base0: seq<int>, colours0: Colourings,
                        code: seq<int>, count: seq<int>, live: set<int>, flight: set<int>)
    requires |code0| == |base0| == |code| && |colours0| == 20 && Tiles(code, count, live, flight)
    requires forall p | 0 <= p < |code| :: code[p] == EMPTY_PAGE <==> Unused(code0, base0, colours0, p)
    ensures ClearOf(count, live, flight) <==> Bounded(code0, base0, colours0, flight)
  {
    hide Unused;
    if Bounded(code0, base0, colours0, flight) {
      forall h | h in live ensures h + Size(count, h) !in flight {
        var p := h + count[h];
        assert EmptyRun(code, h, count[h]) && Covers(count, h, p - 1);
        assert code[p - 1] == EMPTY_PAGE && p - 1 !in flight;
      }
    }
    if p :| p in flight && 0 < p <= |code| && p - 1 !in flight && Unused(code0, base0, colours0, p - 1) {
      assert code[p - 1] == EMPTY_PAGE;
      var h :| h in live && Covers(count, h, p - 1);
      assert EmptyRun(code, h, count[h]) && !Covers(count, h, p);
      assert h + Size(count, h) == p;
    }
  }

  lemma SweptKeys(code0: seq<int>, base0: seq<int>, colours0: Colourings, code: seq<int>, base: seq<int>,
                  colours: Colourings, page: int)
    requires Swept(code0, base0, colours0, code, base, colours, page)
    ensures Keys(code, base, colours) && |code0| == |base0| == |code| == |base| && |colours0| == 20
  {}

  predicate UnusedRun(code: seq<int>, base: seq<int>, colours: Colourings, p: int, n: int)
    requires |code| == |base| && |colours| == 20
  {
    0 <= p && 0 < n && p + n <= |code| && forall q | p <= q < p + n :: Unused(code, base, colours, q)
  }

  /** A longest run of pages without an allocated object. */
  predicate MaximalUnused(code: seq<int>, base: seq<int>, colours: Colourings, p: int, n: int)
    requires |code| == |base| && |colours| == 20
  {
    && UnusedRun(code, base, colours, p, n)
    && (p == 0 || !Unused(code, base, colours, p - 1)) && (p + n == |code| || !Unused(code, base, colours, p + n))
  }

  lemma CoalescedTable(code0: seq<int>, base0: seq<int>, colours0: Colourings,
                       code: seq<int>, base: seq<int>, colours: Colourings)
    requires Coalesced(code0, base0, colours0, code, base, colours) && Assigned(code0)
    ensures |code0| == |base0| == |code| == |base| && |colours0| == 20
    ensures Keys(code, base, colours) && Assigned(code)
    ensures forall p | 0 <= p < |code| :: code[p] == EMPTY_PAGE <==> Unused(code0, base0, colours0, p)
  {}

  lemma OneHeader(g: Group, p: int, c: int)
    requires IsGroup(c) && c > 12 && g.size == Pow2(c) && forall a | a in HeadersOn(p, c) :: a in g.hdr
    ensures PageStart(p) in g.hdr
    ensures AllGreen(Colouring(g.hdr), p, c) <==> g.hdr[PageStart(p)].colour == Green
    ensures g.size / BYTES_PER_PAGE == PagesPerBlock(c)
  {
    BlockIsFull(c);
    assert HeadersOn(p, c)[0] == PageStart(p) && PageStart(p) in HeadersOn(p, c);
    LargeBlock(c);
  }

  lemma LargeBlock(c: int)
    requires IsGroup(c) && c > 12
    ensures Pow2(c) / BYTES_PER_PAGE == PagesPerBlock(c)
  {
    BlockIsFull(c);
    DivUnique(Pow2(c), PagesPerBlock(c), 0, BYTES_PER_PAGE);
  }

  ghost function ColoursOf(gs: seq<Group>): (r: Colourings)
    reads set g | g in gs
    ensures |r| == |gs| && forall i | 0 <= i < |r| :: r[i] == Colouring(gs[i].hdr)
  {
    if gs == [] then [] else ColoursOf(gs[..|gs| - 1]) + [Colouring(gs[|gs| - 1].hdr)]
  }

  /** What a group tells the collector: how many objects are gray, which is scanned next, which are white. */
  datatype Mark = Mark(grays: nat, cursor: int, whites: seq<int>)

  function MarkOf(s: Shape): Mark { Mark(s.grays, At(s.main, s.grays - 1), s.whites) }

  ghost function MarksOf(gs: seq<Group>): (r: seq<Mark>)
    reads set g | g in gs
    ensures |r| == |gs| && forall i | 0 <= i < |r| :: r[i] == MarkOf(gs[i].shape)
  {
    if gs == [] then [] else MarksOf(gs[..|gs| - 1]) + [MarkOf(gs[|gs| - 1].shape)]
  }

  predicate NoGrays(marks: seq<Mark>) { forall i | 0 <= i < |marks| :: marks[i].grays == 0 }

  predicate NoWhites(marks: seq<Mark>) { forall i | 0 <= i < |marks| :: marks[i].whites == [] }

  lemma MarksMean(gs: seq<Group>)
    ensures NoGrays(MarksOf(gs)) <==> forall i | 0 <= i < |gs| :: gs[i].shape.grays == 0
    ensures NoWhites(MarksOf(gs)) <==> forall i | 0 <= i < |gs| :: gs[i].shape.whites == []
  {
    assert forall i | 0 <= i < |gs| :: MarksOf(gs)[i] == MarkOf(gs[i].shape);
  }

  /** Objects added or taken at the free end do not concern the collector. */
  lemma SameMark(s: Shape, blocks: seq<int>)
    requires s.grays <= |s.main|
    ensures MarkOf(Extended(s, blocks)) == MarkOf(s) && MarkOf(s.(retained := s.retained + 1)) == MarkOf(s)
  {}

  lemma EmptyKeys(code: seq<int>, base: seq<int>, colours: Colourings)
    requires |code| == |base| && |colours| == 20
    requires (forall p | 0 <= p < |code| :: code[p] == EMPTY_PAGE) && forall i | 0 <= i < 20 :: colours[i] == map[]
    ensures Keys(code, base, colours)
  {}

  /** init_group_info */
  method MakeGroups() returns (gs: seq<Group>)
    ensures |gs| == 20 && forall i, j | 0 <= i < j < 20 :: gs[i] != gs[j]
    ensures forall i | 0 <= i < 20 :: fresh(gs[i]) && gs[i].size == Pow2(i + MIN_GROUP_INDEX) && gs[i].Valid(Gen0, Gen1)
    ensures forall i | 0 <= i < 20 :: gs[i].shape == Shape([], 0, 0, []) && gs[i].hdr == map[]
  {
    hide Good;
    gs := [];
    var c := MIN_GROUP_INDEX;
    while c <= MAX_GROUP_INDEX
      invariant MIN_GROUP_INDEX <= c <= MAX_GROUP_INDEX + 1 && |gs| == c - MIN_GROUP_INDEX
      invariant forall i | 0 <= i < |gs| :: fresh(gs[i])
      invariant forall i, j | 0 <= i < j < |gs| :: gs[i] != gs[j]
      invariant forall i | 0 <= i < |gs| :: gs[i].size == Pow2(i + MIN_GROUP_INDEX) && gs[i].Valid(Gen0, Gen1)
      invariant forall i | 0 <= i < |gs| :: gs[i].shape == Shape([], 0, 0, []) && gs[i].hdr == map[]
    {
      var g := new Group(Pow2(c), Gen0, Gen1);
      gs := gs + [g];
      c := c + 1;
    }
  }

  function WithBlock(colours: Colourings, p: int, c: int): Colourings
    requires |colours| == 20 && IsGroup(c)
  {
    var i := c - MIN_GROUP_INDEX;
    colours[i := colours[i] + Greens(HeadersOn(p, c))]
  }

  /** Group i may have gained objects; nothing else is different. */
  ghost predicate Extends(before: Colourings, after: Colourings, i: nat)
    requires i < |before| == |after|
  {
    && (forall j | 0 <= j < |before| && j != i :: after[j] == before[j])
    && forall a | a in before[i] :: a in after[i] && after[i][a] == before[i][a]
  }

  lemma CommitKeys(code: seq<int>, base: seq<int>, colours: Colourings, p: int, c: int)
    requires Keys(code, base, colours) && IsGroup(c) && EmptyRun(code, p, PagesPerBlock(c))
    ensures Keys(Filled(code, p, PagesPerBlock(c), c), Filled(base, p, PagesPerBlock(c), p), WithBlock(colours, p, c))
    ensures forall a | a in HeadersOn(p, c) :: a !in colours[c - MIN_GROUP_INDEX]
    ensures PageStart(p) >= 0 && Extends(colours, WithBlock(colours, p, c), c - MIN_GROUP_INDEX)
  {
    CommitOwned(code, base, p, c);
    forall d | IsGroup(d)
      ensures Keyed(Filled(code, p, PagesPerBlock(c), c), Filled(base, p, PagesPerBlock(c), p), d,
                    WithBlock(colours, p, c)[d - MIN_GROUP_INDEX]) {
      CommitKeyed(code, base, p, c, d, colours[d - MIN_GROUP_INDEX]);
    }
    CommitKeyed(code, base, p, c, c, colours[c - MIN_GROUP_INDEX]);
  }

  /** new_ was free or did not exist; now it is allocated, and no other object of any group has changed. */
  ghost predicate NewObject(before: Colourings, after: Colourings, i: nat, new_: int, marked: Colour)
    requires i < |before| == |after|
  {
    && new_ in after[i] && after[i][new_] == marked && (new_ in before[i] ==> before[i][new_] == Green)
    && (forall a | a in before[i] && a != new_ :: a in after[i] && after[i][a] == before[i][a])
    && forall j | 0 <= j < |before| && j != i :: after[j] == before[j]
  }

  /** A green header of group c, of the fresh block if there is one, has turned black. */
  predicate Served(before: Colourings, after: Colourings, block: int, c: int, new_: int, marked: Colour)
    requires |before| == 20 && IsGroup(c)
  {
    var i := c - MIN_GROUP_INDEX;
    var between := if block == NULL then before else WithBlock(before, block, c);
    new_ in between[i] && between[i][new_] == Green && after == between[i := between[i][new_ := marked]]
  }

  lemma SameExtends(colours: Colourings, i: nat)
    requires i < |colours|
    ensures Extends(colours, colours, i)
  {}

  lemma ObjectIsNew(before: Colourings, between: Colourings, i: nat, new_: int, marked: Colour)
    requires i < |before| == |between| && new_ in between[i] && between[i][new_] == Green
    requires Extends(before, between, i)
    ensures NewObject(before, between[i := between[i][new_ := marked]], i, new_, marked)
  {}

  /** Recolouring headers moves none. */
  lemma RecolouredKeys(code: seq<int>, base: seq<int>, colours: Colourings, colours': Colourings)
    requires Keys(code, base, colours) && |colours'| == 20
    requires forall i | 0 <= i < 20 :: colours'[i].Keys == colours[i].Keys
    ensures Keys(code, base, colours')
  {
    forall c | IsGroup(c) ensures Keyed(code, base, c, colours'[c - MIN_GROUP_INDEX]) {
      assert Keyed(code, base, c, colours[c - MIN_GROUP_INDEX]);
      forall a ensures a in colours'[c - MIN_GROUP_INDEX] <==> HeaderAt(code, base, c, a) {
        assert a in colours'[c - MIN_GROUP_INDEX].Keys <==> a in colours[c - MIN_GROUP_INDEX].Keys;
      }
    }
  }

  function RecycledAll(colours: Colourings, unmarked: Colour): (r: Colourings)
    ensures |r| == |colours| && forall i | 0 <= i < |r| :: r[i] == Recycled(colours[i], unmarked)
  {
    seq(|colours|, i requires 0 <= i < |colours| => Recycled(colours[i], unmarked))
  }

  lemma RecycledKeys(code: seq<int>, base: seq<int>, colours: Colourings, unmarked: Colour)
    requires Keys(code, base, colours)
    ensures Keys(code, base, RecycledAll(colours, unmarked))
  {
    RecolouredKeys(code, base, colours, RecycledAll(colours, unmarked));
  }

  lemma InRange(g: Group, marked: Colour, unmarked: Colour)
    requires g.Valid(marked, unmarked)
    ensures g.shape.grays <= g.shape.retained <= |g.shape.main|
  {}

  lemma FreeIsGreen(g: Group, marked: Colour, unmarked: Colour)
    requires g.Valid(marked, unmarked) && g.free != NULL
    ensures g.shape.retained < |g.shape.main| && g.free == g.shape.main[g.shape.retained]
    ensures g.free in g.hdr && Colouring(g.hdr)[g.free] == Green
  {
    FreeLinked(g.hdr, Cut(g.gray, g.black, g.free, g.last, g.white), g.shape, marked, unmarked);
    assert ColourAt(Colouring(g.hdr), g.shape, marked, g.shape.retained);
  }

  /** After fresh blocks have been appended there is a free object again. */
  lemma FreshFree(g: Group, p: int, c: int, was: Shape, marked: Colour, unmarked: Colour)
    requires g.Valid(marked, unmarked) && IsGroup(c) && p >= 0 && g.shape == Extended(was, HeadersOn(p, c))
    requires was.retained == |was.main|
    ensures g.free != NULL
  {
    HeadersOnFirstPage(p, c);
    assert g.free == HeadersOn(p, c)[0] && g.free in HeadersOn(p, c);
  }

  lemma NoFree(g: Group, marked: Colour, unmarked: Colour)
    requires g.Valid(marked, unmarked) && g.free == NULL
    ensures g.shape.retained == |g.shape.main|
  {
    NoFreeLinked(g.hdr, Cut(g.gray, g.black, g.free, g.last, g.white), g.shape, marked, unmarked);
  }

  lemma BlockArithmetic(c: int)
    requires IsGroup(c)
    ensures var perObject := Pow2(c) / BYTES_PER_PAGE;
            var bytes := (if perObject > 1 then perObject else 1) * BYTES_PER_PAGE;
            && bytes / Pow2(c) == ObjectsPerBlock(c)
            && ObjectsPerBlock(c) * Pow2(c) / BYTES_PER_PAGE == PagesPerBlock(c)
  {
    BlockIsFull(c);
    LargeIsLarge(c);
    PageIsPow2();
    var n, m, size := ObjectsPerBlock(c), PagesPerBlock(c), Pow2(c);
    DivUnique(n * size, m, 0, BYTES_PER_PAGE);
    DivUnique(m * BYTES_PER_PAGE, n, 0, size);
    if c > 12 { LargeBlock(c); }
  }

  /** The main chain up to the free list has become the white chain. */
  predicate Flips(before: Shape, after: Shape) {
    before.retained <= |before.main| && after == Flipped(before)
  }

  lemma FlipsOne(before: Shape, after: Shape)
    requires before.retained <= |before.main| && after == Flipped(before)
    ensures Flips(before, after) && after.grays == 0
  {}

  class Heap {
    const table: PageTable
    const groups: seq<Group>
    var marked: Colour
    var unmarked: Colour

    /** RTinit_heap: one partition of total pages, all empty, and twenty empty groups. */
    constructor (total: nat)
      requires total > 0
      ensures Valid() && Quiet() && NoWhites(Marks()) && table.total == total && table.flight == {}
      ensures marked == Gen0 && unmarked == Gen1 && forall i | 0 <= i < 20 :: Colours()[i] == map[]
      ensures fresh(table) && fresh(table.code) && fresh(table.base) && fresh(table.count) && fresh(table.next)
      ensures forall g | g in groups :: fresh(g)
      ensures forall p | 0 <= p < total :: table.code[p] == EMPTY_PAGE
    {
      hide Good, Tiles, Listed, Keys, Keyed, Owned, Group.Valid, PageTable.Valid, PageTable.Linked, Assigned;
      var gs := MakeGroups();
      var t := new PageTable(total);
      t.InitEmptyPages(0, total);
      table := t;
      groups := gs;
      marked, unmarked := Gen0, Gen1;
      new;
      FreshIsValid();
    }

    lemma FreshIsValid()
      requires table.Valid() && Shaped() && marked == Gen0 && unmarked == Gen1
      requires forall i | 0 <= i < 20 :: groups[i].Valid(Gen0, Gen1)
      requires forall i | 0 <= i < 20 :: groups[i].shape == Shape([], 0, 0, []) && groups[i].hdr == map[]
      requires forall p | 0 <= p < table.total :: table.code[p] == EMPTY_PAGE
      ensures Valid() && Quiet() && NoWhites(Marks()) && forall i | 0 <= i < 20 :: Colours()[i] == map[]
    {
      hide Good, Tiles, Listed, Keyed, Owned, Group.Valid;
      assert GroupsValid();
      EmptyKeys(table.code[..], table.base[..], Colours());
    }

    ghost function Footprint(): set<object>
      reads this
    {
      {this, table, table.code, table.base, table.count, table.next} + (set g | g in groups)
    }

    ghost predicate Shaped() {
      && |groups| == 20 && (forall i, j | 0 <= i < j < 20 :: groups[i] != groups[j])
      && forall i | 0 <= i < 20 :: groups[i].size == Pow2(i + MIN_GROUP_INDEX)
    }

    ghost function Colours(): Colourings
      reads set g | g in groups
    {
      ColoursOf(groups)
    }

    ghost function Marks(): seq<Mark>
      reads set g | g in groups
    {
      MarksOf(groups)
    }

    ghost predicate GroupsValid()
      reads this, set g | g in groups
    {
      Shaped() && forall i | 0 <= i < 20 :: groups[i].Valid(marked, unmarked)
    }

    ghost predicate Valid()
      reads Footprint()
    {
      && table.Valid() && GroupsValid() && Keys(table.code[..], table.base[..], Colours())
      && Assigned(table.code[..])
    }

    /** Nothing is gray: the collector is between two mark phases. */
    ghost predicate Quiet()
      reads set g | g in groups
    {
      NoGrays(Marks())
    }

    /** The block at page is one of group c's, as the page table and the headers have it. */
    ghost predicate BlockAtPage(page: int, c: int)
      reads Footprint()
    {
      && |groups| == 20 && IsGroup(c) && table.Arrays() && 0 <= page && page + PagesPerBlock(c) <= table.total
      && (forall q | page <= q < page + PagesPerBlock(c) :: table.code[q] == c)
      && forall a | a in HeadersOn(page, c) :: a in groups[c - MIN_GROUP_INDEX].hdr
    }

    /** What identifying one block does: nothing, or its headers leave the group and its pages become FREE. */
    twostate predicate BlockIdentified(page: int, c: int)
      requires |groups| == 20 && IsGroup(c)
      reads Footprint()
    {
      var i := c - MIN_GROUP_INDEX;
      if AllGreen(old(Colouring(groups[i].hdr)), page, c) then
        && Released(old(table.code[..]), old(table.base[..]), page, c, table.code[..], table.base[..])
        && Colours() == old(Colours())[i := old(Colours())[i] - Elements(HeadersOn(page, c))]
      else
        table.code[..] == old(table.code[..]) && table.base[..] == old(table.base[..]) && Colours() == old(Colours())
    }

    /** The block's headers leave the free list. */
    method TakeOffFreeList(page: int, c: int)
      requires GroupsValid() && Quiet() && IsGroup(c)
      requires AllGreen(Colouring(groups[c - MIN_GROUP_INDEX].hdr), page, c)
      modifies groups[c - MIN_GROUP_INDEX]
      ensures GroupsValid() && Marks() == old(Marks())
      ensures var i := c - MIN_GROUP_INDEX;
              Colours() == old(Colours())[i := old(Colours())[i] - Elements(HeadersOn(page, c))]
    {
      hide Good, Elements, Group.Valid, AllGreen, Colouring;
      RemoveBlock(groups[c - MIN_GROUP_INDEX], page, c, marked, unmarked);
    }

    /** Take the block's headers off the free list, then give up its n pages. */
    method ReleaseBlock(page: int, c: int, n: int, clear: bool)
      requires table.Valid() && GroupsValid() && Quiet() && BlockAtPage(page, c) && n == PagesPerBlock(c)
      requires AllGreen(Colouring(groups[c - MIN_GROUP_INDEX].hdr), page, c)
      modifies groups[c - MIN_GROUP_INDEX], table.code, table.base
      ensures table.Valid() && GroupsValid() && Marks() == old(Marks())
      ensures Released(old(table.code[..]), old(table.base[..]), page, c, table.code[..], table.base[..])
      ensures var i := c - MIN_GROUP_INDEX;
              Colours() == old(Colours())[i := old(Colours())[i] - Elements(HeadersOn(page, c))]
    {
      hide Good, Tiles, Listed, Elements, Group.Valid, AllGreen, Colouring;
      TakeOffFreeList(page, c);
      hide GroupsValid, ColoursOf, MarksOf;
      table.MarkFree(page, n, clear);
    }

    method IdentifySingleFreePage(page: int, c: int)
      requires table.Valid() && GroupsValid() && Quiet() && BlockAtPage(page, c) && c <= 12
      modifies groups[c - MIN_GROUP_INDEX], table.code, table.base
      ensures table.Valid() && GroupsValid() && Marks() == old(Marks()) && BlockIdentified(page, c)
    {
      hide Good, Tiles, Listed, Elements, Group.Valid, AllGreen, Colouring;
      var group := groups[c - MIN_GROUP_INDEX];
      var allGreen := AllGreenPage(group, page, c);
      if allGreen {
        allGreen := AllGreenPage(group, page, c);
        if allGreen { ReleaseBlock(page, c, 1, false); }
      }
    }

    method IdentifyMultipleFreePages(page: int, c: int) returns (base_: int)
      requires table.Valid() && GroupsValid() && Quiet() && BlockAtPage(page, c) && c > 12 && table.base[page] == page
      modifies groups[c - MIN_GROUP_INDEX], table.code, table.base
      ensures table.Valid() && GroupsValid() && Marks() == old(Marks()) && BlockIdentified(page, c) && base_ == page
    {
      hide Good, Tiles, Listed, Elements, Group.Valid, Colouring;
      var group := groups[c - MIN_GROUP_INDEX];
      base_ := page;
      OneHeader(group, page, c);
      if group.hdr[PageStart(page)].colour == Green {
        ReleaseBlock(page, c, group.size / BYTES_PER_PAGE, true);
      }
    }

    /** identify_free_pages: one pass over the page table, block by block. */
    method IdentifyFreePages()
      requires Valid() && Quiet()
      modifies groups, table.code, table.base
      ensures table.Valid() && GroupsValid() && Marks() == old(Marks())
      ensures Swept(old(table.code[..]), old(table.base[..]), old(Colours()), table.code[..], table.base[..], Colours(),
                    table.total)
    {
      hide Good, Tiles, Listed, Elements, Group.Valid, AllGreen, Swept, Keys, Released;
      ghost var code0, base0, colours0 := table.code[..], table.base[..], Colours();
      SweepStart(code0, base0, colours0);
      var page := 0;
      while page < table.total
        invariant 0 <= page <= table.total && table.Valid() && GroupsValid() && Marks() == old(Marks())
        invariant Swept(code0, base0, colours0, table.code[..], table.base[..], Colours(), page)
        decreases table.total - page
      {
        page := IdentifyAt(page, code0, base0, colours0);
      }
    }

    /** One block of the sweep, small objects or large. */
    method IdentifyBlock(page: int, c: int) returns (next: int)
      requires table.Valid() && GroupsValid() && Quiet() && BlockAtPage(page, c) && table.base[page] == page
      modifies groups[c - MIN_GROUP_INDEX], table.code, table.base
      ensures table.Valid() && GroupsValid() && Marks() == old(Marks()) && BlockIdentified(page, c)
      ensures next == page + PagesPerBlock(c)
    {
      hide Good, Tiles, Listed, Elements, Group.Valid, AllGreen, Released, Colouring;
      if c <= 12 {
        IdentifySingleFreePage(page, c);
        next := page + 1;
      } else {
        next := IdentifyMultipleFreePages(page, c);
        LargeBlock(c);
        next := next + groups[c - MIN_GROUP_INDEX].size / BYTES_PER_PAGE;
      }
    }

    /** One turn of the loop: from the block at page to the next one. */
    method IdentifyAt(page: int, ghost code0: seq<int>, ghost base0: seq<int>, ghost colours0: Colourings)
      returns (next: int)
      requires table.Valid() && GroupsValid() && Quiet() && 0 <= page < table.total
      requires Swept(code0, base0, colours0, table.code[..], table.base[..], Colours(), page)
      modifies groups, table.code, table.base
      ensures table.Valid() && GroupsValid() && Marks() == old(Marks()) && page < next <= table.total
      ensures Swept(code0, base0, colours0, table.code[..], table.base[..], Colours(), next)
    {
      hide Good, Tiles, Listed, Elements, Group.Valid, AllGreen, Swept, Keys, Released, Colouring;
      ghost var code, base, colours := table.code[..], table.base[..], Colours();
      var c := table.code[page];
      if c > EXTERNAL_PAGE {
        SweepGroup(code0, base0, colours0, code, base, colours, page);
        next := IdentifyBlock(page, c);
        SweepIdentified(code0, base0, colours0, code, base, colours, page, table.code[..], table.base[..], Colours());
      } else {
        SweepOther(code0, base0, colours0, code, base, colours, page);
        next := page + 1;
      }
    }

    /**
     The two halves of coalesce_all_free_pages that are about pages: identify the unused
     ones, then make them holes.
     */
    method ReclaimPages()
      requires Valid() && Quiet()
      modifies groups, table`emptyPages, table`list, table.code, table.base, table.count, table.next
      ensures table.Valid() && GroupsValid() && Marks() == old(Marks())
      ensures Coalesced(old(table.code[..]), old(table.base[..]), old(Colours()), table.code[..], table.base[..],
                        Colours())
    {
      hide Good, Tiles, Listed, Elements, Group.Valid, Swept, Keys, Unused, Colouring, Coalesced, Assigned;
      ghost var code0, base0, colours0 := table.code[..], table.base[..], Colours();
      IdentifyFreePages();
      ghost var code1, base1, colours1 := table.code[..], table.base[..], Colours();
      SweptKeys(code0, base0, colours0, code1, base1, colours1, table.total);
      table.CoalesceFreePages();
      SweepCoalesces(code0, base0, colours0, code1, base1, colours1, table.base[..]);
    }

    /**
     coalesce_all_free_pages: the holes become exactly the longest runs of pages that held no
     allocated object and are not in flight, exactly the headers of the former are gone, and
     every other header is as it was.
     */
    method CoalesceAllFreePages()
      requires Valid() && Quiet() && Bounded(table.code[..], table.base[..], Colours(), table.flight)
      modifies groups, table`emptyPages, table`list, table.code, table.base, table.count, table.next
      ensures Valid() && Quiet() && Marks() == old(Marks())
      ensures Coalesced(old(table.code[..]), old(table.base[..]), old(Colours()), table.code[..], table.base[..],
                        Colours())
      ensures var mask := Masked(old(table.code[..]), table.flight);
              forall p, n :: MaximalUnused(mask, old(table.base[..]), old(Colours()), p, n)
                <==> p in table.list && 0 <= p < table.total && n == table.count[p]
      ensures HolesAreMaximalRuns(Masked(table.code[..], table.flight), table.count[..], Elements(table.list))
    {
      hide Good, Tiles, Listed, Elements, Group.Valid, Keys, HolesAreMaximalRuns, Unused, MaximalUnused, Colouring;
      hide Coalesced, Assigned, Bounded, ClearOf, Masked;
      ghost var code0, base0, colours0 := table.code[..], table.base[..], Colours();
      ReclaimPages();
      ghost var code1, base1, colours1 := table.code[..], table.base[..], Colours();
      CoalescedTable(code0, base0, colours0, code1, base1, colours1);
      ClearIffBounded(code0, base0, colours0, code1, table.count[..], Elements(table.list), table.flight);
      table.MergeAdjacentHoles();
      assert table.code[..] == code1 && table.base[..] == base1;
      assert Colours() == colours1 && Marks() == old(Marks());
      assert GroupsValid();
      assert Coalesced(code0, base0, colours0, table.code[..], table.base[..], Colours());
      MaskedAlike(code0, base0, colours0, code1, table.flight);
      MergedHoles(Masked(code0, table.flight), base0, colours0, Masked(code1, table.flight), table.count[..],
                  table.list);
      hide GroupsValid, Tiles, PageTable.Valid, PageTable.Linked;
    }

    /** The arithmetic of init_pages_for_group: how many objects, on how many pages. */
    method BlockSize(c: int, minPages: int) returns (objects: int, pageCount: int)
      requires Shaped() && IsGroup(c) && minPages == 1
      ensures objects == ObjectsPerBlock(c) && pageCount == PagesPerBlock(c)
    {
      var size := groups[c - MIN_GROUP_INDEX].size;
      var pagesPerObject := size / BYTES_PER_PAGE;
      var byteCount := (if pagesPerObject > minPages then pagesPerObject else minPages) * BYTES_PER_PAGE;
      objects := byteCount / size;
      pageCount := objects * size / BYTES_PER_PAGE;
      BlockArithmetic(c);
    }

    /** init_pages_for_group: fresh pages for a group that has run out of free objects, if some hole is big enough. */
    method InitPagesForGroup(c: int) returns (page: int)
      requires Valid() && IsGroup(c) && groups[c - MIN_GROUP_INDEX].free == NULL
      modifies groups[c - MIN_GROUP_INDEX], table`emptyPages, table`list, table`flight, table.code, table.base
      modifies table.count, table.next
      ensures Valid() && table.flight == old(table.flight) && Marks() == old(Marks())
      ensures exists at :: BestFit(old(table.list), old(table.count[..]), PagesPerBlock(c), |old(table.list)|, page, at)
      ensures page == NULL ==> unchanged(table, table.code, table.base, groups[c - MIN_GROUP_INDEX])
      ensures page != NULL ==>
                && groups[c - MIN_GROUP_INDEX].shape ==
                     Extended(old(groups[c - MIN_GROUP_INDEX].shape), HeadersOn(page, c))
                && Colours() == WithBlock(old(Colours()), page, c)
                && Extends(old(Colours()), Colours(), c - MIN_GROUP_INDEX)
                && EmptyRun(old(table.code[..]), page, PagesPerBlock(c))
                && table.code[..] == Filled(old(table.code[..]), page, PagesPerBlock(c), c)
                && table.base[..] == Filled(old(table.base[..]), page, PagesPerBlock(c), page)
    {
      hide Good, Tiles, Listed, Elements, Group.Valid, PageTable.Valid, PageTable.Linked, Keys, Colouring, Greens, Run;
      ghost var colours := Colours();
      var objects, pageCount := BlockSize(c, 1);
      BlockIsFull(c);
      ghost var at;
      page, at := table.AllocateEmptyPages(pageCount);
      if page != NULL {
        assert Colours() == colours;
        CommitBlock(page, objects, pageCount, c);
      }
    }

    /** Lay the objects out on pages taken from a hole, link them to the free list, then publish the pages. */
    method CommitBlock(page: int, objects: int, pageCount: int, c: int)
      requires Valid() && IsGroup(c) && groups[c - MIN_GROUP_INDEX].free == NULL
      requires objects == ObjectsPerBlock(c) && pageCount == PagesPerBlock(c)
      requires EmptyRun(table.code[..], page, pageCount) && Run(page, pageCount) <= table.flight
      modifies groups[c - MIN_GROUP_INDEX], table`flight, table.code, table.base
      ensures Valid() && table.flight == old(table.flight) - Run(page, pageCount) && Marks() == old(Marks())
      ensures groups[c - MIN_GROUP_INDEX].shape == Extended(old(groups[c - MIN_GROUP_INDEX].shape), HeadersOn(page, c))
      ensures Colours() == WithBlock(old(Colours()), page, c) && Extends(old(Colours()), Colours(), c - MIN_GROUP_INDEX)
      ensures table.code[..] == Filled(old(table.code[..]), page, pageCount, c)
      ensures table.base[..] == Filled(old(table.base[..]), page, pageCount, page)
    {
      hide Good, Tiles, Listed, Elements, Group.Valid, PageTable.Valid, PageTable.Linked, Keys, Colouring, Greens, Run;
      BlockIsFull(c);
      ghost var colours := Colours();
      CommitKeys(table.code[..], table.base[..], colours, page, c);
      LayOut(page, objects, c);
      assert table.Valid();
      hide GroupsValid, ColoursOf, MarksOf;
      table.Publish(page, pageCount, c);
    }

    /** The objects of fresh pages join the free list of group c. */
    method LayOut(page: int, objects: int, c: int)
      requires GroupsValid() && IsGroup(c) && groups[c - MIN_GROUP_INDEX].free == NULL
      requires PageStart(page) >= 0 && objects == ObjectsPerBlock(c)
      requires forall a | a in HeadersOn(page, c) :: a !in groups[c - MIN_GROUP_INDEX].hdr
      modifies groups[c - MIN_GROUP_INDEX]
      ensures GroupsValid() && Marks() == old(Marks()) && Colours() == WithBlock(old(Colours()), page, c)
      ensures groups[c - MIN_GROUP_INDEX].shape == Extended(old(groups[c - MIN_GROUP_INDEX].shape), HeadersOn(page, c))
    {
      hide Good, Elements, Group.Valid, Colouring, Greens, ColoursOf, MarksOf, MarkOf, Extended;
      BlockIsFull(c);
      InRange(groups[c - MIN_GROUP_INDEX], marked, unmarked);
      SameMark(groups[c - MIN_GROUP_INDEX].shape, HeadersOn(page, c));
      assert HeadersOn(page, c) == Blocks(PageStart(page), groups[c - MIN_GROUP_INDEX].size, objects);
      groups[c - MIN_GROUP_INDEX].InitPages(PageStart(page), objects, marked, unmarked);
    }

    /**
     RTallocate; NULL where the source would wait for the collector or give up.  block is
     the first page of the block committed for it, if any.
     */
    method Allocate(c: int, class_: int) returns (new_: int, ghost block: int)
      requires Valid() && IsGroup(c)
      modifies groups[c - MIN_GROUP_INDEX], table`emptyPages, table`list, table`flight, table.code, table.base
      modifies table.count, table.next
      ensures Valid() && table.flight == old(table.flight) && Marks() == old(Marks())
      ensures new_ == NULL <==>
              && old(groups[c - MIN_GROUP_INDEX].free) == NULL
              && forall k | 0 <= k < |old(table.list)| ::
                   Size(old(table.count[..]), old(table.list)[k]) < PagesPerBlock(c)
      ensures block == NULL ==> table.code[..] == old(table.code[..]) && table.base[..] == old(table.base[..])
      ensures block != NULL ==>
                && old(groups[c - MIN_GROUP_INDEX].free) == NULL
                && EmptyRun(old(table.code[..]), block, PagesPerBlock(c))
                && table.code[..] == Filled(old(table.code[..]), block, PagesPerBlock(c), c)
                && table.base[..] == Filled(old(table.base[..]), block, PagesPerBlock(c), block)
      ensures new_ == NULL ==> block == NULL && Colours() == old(Colours())
      ensures new_ != NULL ==>
                && Served(old(Colours()), Colours(), block, c, new_, marked)
                && NewObject(old(Colours()), Colours(), c - MIN_GROUP_INDEX, new_, marked)
                && new_ in groups[c - MIN_GROUP_INDEX].hdr && groups[c - MIN_GROUP_INDEX].hdr[new_].class_ == class_
    {
      hide Good, Tiles, Listed, Elements, Group.Valid, PageTable.Valid, PageTable.Linked, Keys, Colouring, Run;
      hide HeadersOn;
      hide NewObject, Extends, WithBlock, Assigned, ColoursOf, MarksOf, MarkOf;
      var group := groups[c - MIN_GROUP_INDEX];
      block := NULL;
      SameExtends(Colours(), c - MIN_GROUP_INDEX);
      if group.free == NULL {
        NoFree(group, marked, unmarked);
        var page := InitPagesForGroup(c);
        if page == NULL { return NULL, NULL; }
        block := page;
        FreshFree(group, page, c, old(group.shape), marked, unmarked);
      }
      ghost var colours := Colours();
      new_ := TakeFree(c, class_);
      ObjectIsNew(old(Colours()), colours, c - MIN_GROUP_INDEX, new_, marked);
    }

    method TakeFree(c: int, class_: int) returns (new_: int)
      requires Valid() && IsGroup(c) && groups[c - MIN_GROUP_INDEX].free != NULL
      modifies groups[c - MIN_GROUP_INDEX]
      ensures Valid() && new_ != NULL && Marks() == old(Marks())
      ensures var i := c - MIN_GROUP_INDEX;
              && new_ in old(Colours())[i] && old(Colours())[i][new_] == Green
              && Colours() == old(Colours())[i := old(Colours())[i][new_ := marked]]
              && new_ in groups[i].hdr && groups[i].hdr[new_].class_ == class_
    {
      hide Good, Tiles, Listed, Elements, Group.Valid, PageTable.Valid, PageTable.Linked, Keys, Keyed, HeadersOn;
      hide Colouring;
      var group := groups[c - MIN_GROUP_INDEX];
      ghost var colours := Colours();
      hide ColoursOf, MarksOf, MarkOf;
      FreeIsGreen(group, marked, unmarked);
      InRange(group, marked, unmarked);
      SameMark(group.shape, []);
      new_ := group.Allocate(class_, marked, unmarked);
      RecolouredKeys(table.code[..], table.base[..], colours, Colours());
    }

    // -------------------------------------------------------------- all groups at once

    /** The loop of flip. */
    method FlipGroups()
      requires GroupsValid() && Quiet() && NoWhites(Marks())
      modifies groups
      ensures Shaped() && forall i | 0 <= i < 20 :: groups[i].Valid(unmarked, marked)
      ensures forall i | 0 <= i < 20 :: Flips(old(groups[i].shape), groups[i].shape)
      ensures Quiet() && Colours() == old(Colours())
    {
      hide Good, Elements, Group.Valid, Colouring, Flips, ColoursOf, MarksOf, MarkOf, NoGrays, NoWhites;
      ghost var colours := Colours();
      MarksMean(groups);
      var i := 0;
      while i < 20
        invariant 0 <= i <= 20 && Shaped()
        invariant forall j | 0 <= j < i :: groups[j].Valid(unmarked, marked) && groups[j].shape.grays == 0
        invariant forall j | 0 <= j < i :: Flips(old(groups[j].shape), groups[j].shape)
        invariant forall j | i <= j < 20 :: unchanged(groups[j])
        invariant forall j | 0 <= j < 20 :: Colouring(groups[j].hdr) == colours[j]
      {
        InRange(groups[i], marked, unmarked);
        ghost var was := groups[i].shape;
        groups[i].Flip(marked, unmarked);
        FlipsOne(was, groups[i].shape);
        i := i + 1;
      }
      MarksMean(groups);
      assert Colours() == colours;
    }

    /** flip: nothing changes colour bits, yet black has become white. */
    method Flip()
      requires Valid() && Quiet() && NoWhites(Marks())
      modifies this, groups
      ensures Valid() && Quiet() && marked == old(unmarked) && unmarked == old(marked)
      ensures Colours() == old(Colours())
      ensures forall i | 0 <= i < 20 :: Flips(old(groups[i].shape), groups[i].shape)
    {
      hide Good, Tiles, Listed, Elements, Group.Valid, PageTable.Valid, PageTable.Linked, Keys, Colouring, Flips;
      hide Assigned;
      hide ColoursOf, MarksOf, NoGrays, NoWhites;
      FlipGroups();
      marked, unmarked := unmarked, marked;
      assert GroupsValid();
      hide GroupsValid;
      assert table.Valid();
    }

    /** The loop of recycle_all_garbage: every white object becomes free. */
    method RecycleGroups()
      requires Valid() && Quiet()
      modifies groups
      ensures GroupsValid() && Quiet() && NoWhites(Marks())
      ensures Colours() == RecycledAll(old(Colours()), unmarked)
    {
      hide Good, Tiles, Listed, Elements, Group.Valid, PageTable.Valid, PageTable.Linked, Keys, Colouring, Recycled;
      hide Assigned, ColoursOf, MarksOf, MarkOf, NoGrays, NoWhites;
      ghost var colours := Colours();
      MarksMean(groups);
      var i := 0;
      while i < 20
        invariant 0 <= i <= 20 && GroupsValid()
        invariant forall j | 0 <= j < 20 :: groups[j].shape.grays == 0
        invariant forall j | i <= j < 20 :: Colouring(groups[j].hdr) == colours[j]
        invariant forall j | 0 <= j < i ::
                    Colouring(groups[j].hdr) == Recycled(colours[j], unmarked) && groups[j].shape.whites == []
      {
        var _ := groups[i].Recycle(marked, unmarked);
        i := i + 1;
      }
      MarksMean(groups);
      assert Colours() == RecycledAll(colours, unmarked);
    }

    /** recycle_all_garbage: every white object becomes free, then unused pages are given back. */
    method RecycleAllGarbage()
      requires Valid() && Quiet()
      requires Bounded(table.code[..], table.base[..], RecycledAll(Colours(), unmarked), table.flight)
      modifies groups, table`emptyPages, table`list, table.code, table.base, table.count, table.next
      ensures Valid() && Quiet() && NoWhites(Marks())
      ensures var colours := RecycledAll(old(Colours()), unmarked);
              var mask := Masked(old(table.code[..]), table.flight);
              && Coalesced(old(table.code[..]), old(table.base[..]), colours, table.code[..], table.base[..], Colours())
              && forall p, n :: MaximalUnused(mask, old(table.base[..]), colours, p, n)
                   <==> p in table.list && 0 <= p < table.total && n == table.count[p]
      ensures HolesAreMaximalRuns(Masked(table.code[..], table.flight), table.count[..], Elements(table.list))
    {
      hide Good, Tiles, Listed, Elements, Group.Valid, PageTable.Valid, PageTable.Linked, Keys, Colouring, Recycled;
      hide Bounded, Masked, HolesAreMaximalRuns, MaximalUnused, Unused, Assigned, Coalesced, GroupsValid;
      ghost var colours := Colours();
      RecycleGroups();
      RecycledKeys(table.code[..], table.base[..], colours, unmarked);
      CoalesceAllFreePages();
    }
  }
}
