/**
 Every byte of the partition is accounted for: a page is part of exactly one hole or of
 exactly one block of a group, and hole bytes, object bytes and pages in flight add up to
 the size of the partition.
 */
module Conservation {
  import opened Colours
  import opened Links
  import opened GroupList
  import opened Pages
  import opened PageTables
  import opened Layout
  import opened Heaps

  // ---------------------------------------------------------------- where a page belongs

  predicate HoleHas(count: seq<int>, live: set<int>, h: int, p: int) { h in live && Covers(count, h, p) }

  predicate BlockHas(code: seq<int>, base: seq<int>, b: int, c: int, p: int) {
    IsBlock(code, base, b, c) && b <= p < b + PagesPerBlock(c)
  }

  lemma BlockPage(code: seq<int>, base: seq<int>, b: int, c: int, p: int)
    requires Owned(code, base) && 0 <= p < |code|
    ensures BlockHas(code, base, b, c, p) ==> code[p] == c && base[p] == b
  {
    if BlockHas(code, base, b, c, p) { assert OwnedPage(code, base, b); }
  }

  lemma HolePage(code: seq<int>, count: seq<int>, live: set<int>, flight: set<int>, h: int, p: int)
    requires Tiles(code, count, live, flight) && 0 <= p < |code|
    ensures HoleHas(count, live, h, p) ==> code[p] == EMPTY_PAGE && p !in flight
  {
    if HoleHas(count, live, h, p) { assert EmptyRun(code, h, count[h]); }
  }

  /** Every page is part of exactly one hole or of exactly one block of a group, never of both. */
  lemma EveryPageHasOnePlace(code: seq<int>, base: seq<int>, count: seq<int>, live: set<int>, p: int)
    requires Tiles(code, count, live, {}) && Owned(code, base) && Assigned(code) && 0 <= p < |code|
    ensures code[p] == EMPTY_PAGE <==> exists h :: HoleHas(count, live, h, p)
    ensures code[p] != EMPTY_PAGE <==> exists b, c :: BlockHas(code, base, b, c, p)
    ensures forall g, h | HoleHas(count, live, g, p) && HoleHas(count, live, h, p) :: g == h
    ensures forall a, b, c, d | BlockHas(code, base, a, c, p) && BlockHas(code, base, b, d, p) :: a == b && c == d
  {
    forall b, c ensures BlockHas(code, base, b, c, p) ==> code[p] == c && base[p] == b {
      BlockPage(code, base, b, c, p);
    }
    forall h ensures HoleHas(count, live, h, p) ==> code[p] == EMPTY_PAGE { HolePage(code, count, live, {}, h, p); }
    if code[p] == EMPTY_PAGE {
      var h :| h in live && Covers(count, h, p);
      assert HoleHas(count, live, h, p);
    } else {
      assert OwnedPage(code, base, p);
      assert BlockHas(code, base, base[p], code[p], p);
    }
  }

  // ---------------------------------------------------------------- objects and pages of one group

  predicate StartsAt(code: seq<int>, base: seq<int>, c: int, p: int) {
    |code| == |base| && 0 <= p < |code| && code[p] == c && base[p] == p
  }

  /** The blocks of group c that start below page n. */
  function Starts(code: seq<int>, base: seq<int>, c: int, n: nat): set<int> {
    set p | 0 <= p < n && StartsAt(code, base, c, p)
  }

  /** The headers of the group below page n. */
  function HeadersBelow(colour: map<int, Colour>, n: nat): set<int> { set a | a in colour && PageOf(a) < n }

  /** The pages of the group whose block starts below page n. */
  function PagesBelow(code: seq<int>, base: seq<int>, c: int, n: nat): set<int> {
    set p | 0 <= p < |code| == |base| && code[p] == c && base[p] < n
  }

  lemma StartsGrow(code: seq<int>, base: seq<int>, c: int, n: nat)
    ensures Starts(code, base, c, n + 1) == Starts(code, base, c, n) + (if StartsAt(code, base, c, n) then {n} else {})
    ensures n !in Starts(code, base, c, n)
  {}

  lemma HeadersCount(p: int, c: int)
    requires IsGroup(c)
    ensures |Elements(HeadersOn(p, c))| == ObjectsPerBlock(c)
  {
    BlockIsFull(c);
    var s := HeadersOn(p, c);
    forall i, j | 0 <= i < j < |s| ensures s[i] != s[j] { BlocksIncrease(PageStart(p), Pow2(c), i, j); }
    DistinctCount(s);
  }

  lemma {:induction false} DistinctCount(s: seq<int>)
    requires forall i, j | 0 <= i < j < |s| :: s[i] != s[j]
    ensures |Elements(s)| == |s|
  {
    if s != [] {
      var t := s[..|s| - 1];
      DistinctCount(t);
      assert s == t + [s[|s| - 1]];
      assert Elements(s) == Elements(t) + {s[|s| - 1]};
    }
  }

  lemma HeadersGrow(code: seq<int>, base: seq<int>, c: int, colour: map<int, Colour>, n: nat)
    requires |code| == |base| && IsGroup(c) && Keyed(code, base, c, colour) && n < |code|
    ensures HeadersBelow(colour, n + 1) ==
            HeadersBelow(colour, n) + (if StartsAt(code, base, c, n) then Elements(HeadersOn(n, c)) else {})
    ensures StartsAt(code, base, c, n) ==> HeadersBelow(colour, n) !! Elements(HeadersOn(n, c))
  {
    HeadersOnFirstPage(n, c);
    forall a ensures a in HeadersBelow(colour, n + 1) <==>
      a in HeadersBelow(colour, n) || (StartsAt(code, base, c, n) && a in Elements(HeadersOn(n, c))) {
      assert a in colour <==> HeaderAt(code, base, c, a);
    }
  }

  lemma {:induction false} HeaderTotal(code: seq<int>, base: seq<int>, c: int, colour: map<int, Colour>, n: nat)
    requires |code| == |base| && IsGroup(c) && Keyed(code, base, c, colour) && n <= |code|
    ensures |HeadersBelow(colour, n)| == |Starts(code, base, c, n)| * ObjectsPerBlock(c)
  {
    if n == 0 {
      forall a | a in colour ensures PageOf(a) >= 0 { assert HeaderAt(code, base, c, a); }
      assert HeadersBelow(colour, 0) == {} && Starts(code, base, c, 0) == {};
    } else {
      HeaderTotal(code, base, c, colour, n - 1);
      HeadersGrow(code, base, c, colour, n - 1);
      StartsGrow(code, base, c, n - 1);
      HeadersCount(n - 1, c);
      var more := if StartsAt(code, base, c, n - 1) then Elements(HeadersOn(n - 1, c)) else {};
      assert |HeadersBelow(colour, n)| == |HeadersBelow(colour, n - 1)| + |more|;
      OneMore(|Starts(code, base, c, n - 1)|, |Starts(code, base, c, n)|, ObjectsPerBlock(c));
    }
  }

  lemma OneMore(k: nat, k': nat, m: nat)
    requires k' == k || k' == k + 1
    ensures k' * m == k * m + (if k' == k then 0 else m)
  {}

  lemma PagesGrow(code: seq<int>, base: seq<int>, c: int, n: nat)
    requires Owned(code, base) && IsGroup(c) && n < |code|
    ensures PagesBelow(code, base, c, n + 1) ==
            PagesBelow(code, base, c, n) + (if StartsAt(code, base, c, n) then Run(n, PagesPerBlock(c)) else {})
    ensures StartsAt(code, base, c, n) ==> PagesBelow(code, base, c, n) !! Run(n, PagesPerBlock(c))
  {
    BlockIsFull(c);
    assert OwnedPage(code, base, n);
    forall p ensures p in PagesBelow(code, base, c, n + 1) <==>
      p in PagesBelow(code, base, c, n) || (StartsAt(code, base, c, n) && p in Run(n, PagesPerBlock(c))) {
      if 0 <= p < |code| { assert OwnedPage(code, base, p); }
    }
  }

  lemma {:induction false} PageTotal(code: seq<int>, base: seq<int>, c: int, n: nat)
    requires Owned(code, base) && IsGroup(c) && n <= |code|
    ensures |PagesBelow(code, base, c, n)| == |Starts(code, base, c, n)| * PagesPerBlock(c)
  {
    if n == 0 {
      forall p | 0 <= p < |code| && code[p] == c ensures base[p] >= 0 { assert OwnedPage(code, base, p); }
      assert PagesBelow(code, base, c, 0) == {} && Starts(code, base, c, 0) == {};
    } else {
      PageTotal(code, base, c, n - 1);
      PagesGrow(code, base, c, n - 1);
      StartsGrow(code, base, c, n - 1);
      var more := if StartsAt(code, base, c, n - 1) then Run(n - 1, PagesPerBlock(c)) else {};
      assert |PagesBelow(code, base, c, n)| == |PagesBelow(code, base, c, n - 1)| + |more|;
      OneMore(|Starts(code, base, c, n - 1)|, |Starts(code, base, c, n)|, PagesPerBlock(c));
    }
  }

  /** The pages of group c. */
  function PagesOf(code: seq<int>, c: int): set<int> { set p | 0 <= p < |code| && code[p] == c }

  /** The objects of a group fill its pages. */
  lemma GroupBytes(code: seq<int>, base: seq<int>, c: int, colour: map<int, Colour>)
    requires Owned(code, base) && IsGroup(c) && Keyed(code, base, c, colour)
    ensures |colour| * Pow2(c) == |PagesOf(code, c)| * BYTES_PER_PAGE
  {
    var n := |code|;
    forall a | a in colour ensures PageOf(a) < n { assert HeaderAt(code, base, c, a); }
    assert HeadersBelow(colour, n) == colour.Keys;
    forall p | 0 <= p < n && code[p] == c ensures base[p] < n { assert OwnedPage(code, base, p); }
    assert PagesBelow(code, base, c, n) == PagesOf(code, c);
    HeaderTotal(code, base, c, colour, n);
    PageTotal(code, base, c, n);
    BlockIsFull(c);
    Balance(|Starts(code, base, c, n)|, ObjectsPerBlock(c), Pow2(c), PagesPerBlock(c));
  }

  lemma Balance(k: nat, objects: nat, size: nat, pages: nat)
    requires objects * size == pages * BYTES_PER_PAGE
    ensures k * objects * size == k * pages * BYTES_PER_PAGE
  {
    assert k * objects * size == k * (objects * size);
  }

  // ---------------------------------------------------------------- all groups

  /** Objects times size, over the first k groups. */
  function ObjectBytes(colours: Colourings, k: nat): nat
    requires k <= |colours|
  {
    if k == 0 then 0 else ObjectBytes(colours, k - 1) + |colours[k - 1]| * Pow2(k - 1 + MIN_GROUP_INDEX)
  }

  function GroupPages(code: seq<int>, k: nat): set<int> {
    set p | 0 <= p < |code| && MIN_GROUP_INDEX <= code[p] < MIN_GROUP_INDEX + k
  }

  lemma {:induction false} ObjectsFillGroupPages(code: seq<int>, base: seq<int>, colours: Colourings, k: nat)
    requires Keys(code, base, colours) && k <= 20
    ensures ObjectBytes(colours, k) == |GroupPages(code, k)| * BYTES_PER_PAGE
  {
    if k == 0 {
      assert GroupPages(code, 0) == {};
    } else {
      var c := k - 1 + MIN_GROUP_INDEX;
      ObjectsFillGroupPages(code, base, colours, k - 1);
      assert IsGroup(c) && Keyed(code, base, c, colours[c - MIN_GROUP_INDEX]);
      GroupBytes(code, base, c, colours[k - 1]);
      assert GroupPages(code, k) == GroupPages(code, k - 1) + PagesOf(code, c);
      assert GroupPages(code, k - 1) !! PagesOf(code, c);
    }
  }

  /**
   Hole bytes, plus objects times size over all groups, plus what an allocation has taken
   and not published yet, is the size of the partition.
   */
  lemma BytesAddUp(code: seq<int>, base: seq<int>, count: seq<int>, list: seq<int>, flight: set<int>,
                   colours: Colourings)
    requires Tiles(code, count, Elements(list), flight) && forall i, j | 0 <= i < j < |list| :: list[i] != list[j]
    requires Keys(code, base, colours) && Assigned(code)
    ensures Total(list, count) * BYTES_PER_PAGE + ObjectBytes(colours, 20) + |flight| * BYTES_PER_PAGE ==
              |code| * BYTES_PER_PAGE
  {
    HolesAndCommittedFillTheHeap(code, count, list, flight);
    ObjectsFillGroupPages(code, base, colours, 20);
    assert Committed(code, flight) == GroupPages(code, 20) + flight;
    assert GroupPages(code, 20) !! flight;
  }

  /** In every state between two operations on the heap. */
  lemma HeapBytesAddUp(heap: Heap)
    requires heap.Valid()
    ensures Total(heap.table.list, heap.table.count[..]) * BYTES_PER_PAGE + ObjectBytes(heap.Colours(), 20)
            + |heap.table.flight| * BYTES_PER_PAGE == heap.table.total * BYTES_PER_PAGE
    ensures forall i | 0 <= i < 20 :: |heap.Colours()[i]| == |heap.groups[i].hdr|
  {
    var t := heap.table;
    ListDistinct(t.next[..], t.emptyPages, t.list);
    hide Keys, Assigned, Tiles, Group.Valid;
    BytesAddUp(t.code[..], t.base[..], t.count[..], t.list, t.flight, heap.Colours());
    forall i | 0 <= i < 20 ensures |heap.Colours()[i]| == |heap.groups[i].hdr| {
      assert Colouring(heap.groups[i].hdr).Keys == heap.groups[i].hdr.Keys;
    }
  }
}
