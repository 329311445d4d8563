/**
 The page table and the hole list as the allocator and the coalescer change them.  The
 words page_count and next that a hole keeps in its first page are arrays indexed by page.
 */
module PageTables {
  import opened Links
  import opened Pages

  /** s with the n entries from p on set to v. */
  function Filled(s: seq<int>, p: int, n: int, v: int): (r: seq<int>)
    ensures |r| == |s| && forall i | 0 <= i < |s| :: r[i] == if p <= i < p + n then v else s[i]
  {
    seq(|s|, i requires 0 <= i < |s| => if p <= i < p + n then v else s[i])
  }

  // ---------------------------------------------------------------- the list

  lemma PushHole(next: seq<int>, head: int, list: seq<int>, p: int)
    requires Listed(next, head, list) && 0 <= p < |next| && p !in list
    ensures Listed(next[p := head], p, [p] + list)
  {
    var next', list' := next[p := head], [p] + list;
    forall i: nat | i < |list'| ensures NextAt(next', list', i) {
      if i > 0 { assert NextAt(next, list, i - 1) && list[i - 1] in list; }
    }
    forall i, j | 0 <= i < j < |list'| ensures list'[i] != list'[j] {
      if i == 0 { assert list'[j] in list; }
    }
  }

  /** Position i of the list is replaced by mid: nothing, or one hole. */
  function Spliced(list: seq<int>, i: nat, mid: seq<int>): seq<int>
    requires i < |list|
  {
    list[..i] + mid + list[i + 1..]
  }

  lemma SpliceHole(next: seq<int>, head: int, list: seq<int>, i: nat, mid: seq<int>, next': seq<int>)
    requires Listed(next, head, list) && i < |list| && |mid| <= 1 && |next'| == |next|
    requires mid != [] ==> 0 <= mid[0] < |next| && mid[0] !in list && next'[mid[0]] == At(list, i + 1)
    requires forall k: nat | k < |list| && k != i :: 0 <= list[k] < |next| &&
               next'[list[k]] == if k + 1 == i then (if mid == [] then At(list, i + 1) else mid[0]) else next[list[k]]
    ensures Listed(next', if i > 0 then head else if mid == [] then At(list, 1) else mid[0], Spliced(list, i, mid))
  {
    var t := Spliced(list, i, mid);
    forall k: nat | k < |t| ensures NextAt(next', t, k) {
      if k < i {
        assert NextAt(next, list, k) && t[k] == list[k];
      } else if k == i && mid != [] {
        assert t[k] == mid[0];
      } else {
        var j := k - |mid| + 1;
        assert NextAt(next, list, j) && t[k] == list[j];
      }
    }
    SpliceDistinct(list, i, mid);
  }

  lemma SpliceDistinct(list: seq<int>, i: nat, mid: seq<int>)
    requires i < |list| && |mid| <= 1 && (mid != [] ==> mid[0] !in list)
    requires forall j, k | 0 <= j < k < |list| :: list[j] != list[k]
    ensures forall j, k | 0 <= j < k < |Spliced(list, i, mid)| :: Spliced(list, i, mid)[j] != Spliced(list, i, mid)[k]
    ensures Elements(Spliced(list, i, mid)) == Elements(list) - {list[i]} + Elements(mid)
  {
    var t := Spliced(list, i, mid);
    forall h | h in list && h != list[i] ensures h in t {
      var k :| 0 <= k < |list| && list[k] == h;
      assert t[if k < i then k else k - 1 + |mid|] == h;
    }
    forall h | h in mid ensures h in t { assert t[i] == h; }
    assert forall h | h in t :: h in list[..i] || h in mid || h in list[i + 1..];
  }

  // ---------------------------------------------------------------- taking pages

  lemma TakeWhole(code: seq<int>, count: seq<int>, live: set<int>, flight: set<int>, b: int)
    requires Tiles(code, count, live, flight) && b in live
    ensures Tiles(code, count, live - {b}, flight + Run(b, count[b]))
  {
    hide Run;
    var flight' := flight + Run(b, count[b]);
    assert EmptyRun(code, b, count[b]);
    forall h, p | h in live - {b} && Covers(count, h, p) ensures p !in flight' { assert p !in Run(b, count[b]); }
    forall p | 0 <= p < |code| && code[p] == EMPTY_PAGE && p !in flight'
      ensures exists h :: h in live - {b} && Covers(count, h, p) {
      var h :| h in live && Covers(count, h, p);
      assert h != b;
    }
  }

  lemma TakeFront(code: seq<int>, count: seq<int>, live: set<int>, flight: set<int>, b: int, n: int)
    requires Tiles(code, count, live, flight) && b in live && 0 < n < count[b]
    ensures b + n < |count| && b + n !in live
    ensures Tiles(code, count[b + n := count[b] - n], live - {b} + {b + n}, flight + Run(b, n))
  {
    hide Run;
    assert EmptyRun(code, b, count[b]);
    var c := b + n;
    var count', live' := count[c := count[b] - n], live - {b} + {c};
    assert c !in live;
    FrontRuns(code, count, live, flight, b, n, count', live');
    FrontCovers(code, count, live, flight, b, n, count', live');
    forall h, p | h in live' && Covers(count', h, p) ensures p !in flight + Run(b, n) {
      if h == c { assert Covers(count, b, p); } else { assert Covers(count, h, p); }
    }
  }

  lemma FrontRuns(code: seq<int>, count: seq<int>, live: set<int>, flight: set<int>, b: int, n: int, count': seq<int>,
                  live': set<int>)
    requires Tiles(code, count, live, flight) && b in live && 0 < n < count[b] && b + n < |count| && b + n !in live
    requires count' == count[b + n := count[b] - n] && live' == live - {b} + {b + n}
    ensures forall h | h in live' :: 0 <= h < |code| && EmptyRun(code, h, count'[h])
    ensures forall g, h | g in live' && h in live' && g < h :: g + count'[g] <= h
  {
    assert EmptyRun(code, b, count[b]);
    assert forall h | h in live && h != b :: count'[h] == count[h];
    forall h | h in live' ensures 0 <= h < |code| && EmptyRun(code, h, count'[h]) {
      if h != b + n { assert EmptyRun(code, h, count[h]); }
    }
  }

  lemma FrontCovers(code: seq<int>, count: seq<int>, live: set<int>, flight: set<int>, b: int, n: int, count': seq<int>,
                    live': set<int>)
    requires Tiles(code, count, live, flight) && b in live && 0 < n < count[b] && b + n < |count| && b + n !in live
    requires count' == count[b + n := count[b] - n] && live' == live - {b} + {b + n}
    ensures forall p | 0 <= p < |code| && code[p] == EMPTY_PAGE && p !in flight + Run(b, n) ::
              exists h :: h in live' && Covers(count', h, p)
  {
    forall p | 0 <= p < |code| && code[p] == EMPTY_PAGE && p !in flight + Run(b, n)
      ensures exists h :: h in live' && Covers(count', h, p) {
      var h :| h in live && Covers(count, h, p);
      if h == b {
        assert b + n in live' && Covers(count', b + n, p);
      } else {
        assert h in live' && Covers(count', h, p);
      }
    }
  }

  lemma PublishPages(code: seq<int>, count: seq<int>, live: set<int>, flight: set<int>, b: int, n: int, owner: int)
    requires Tiles(code, count, live, flight) && 0 < n && Run(b, n) <= flight && owner != EMPTY_PAGE
    ensures Tiles(Filled(code, b, n, owner), count, live, flight - Run(b, n))
  {
    var code' := Filled(code, b, n, owner);
    forall h | h in live ensures EmptyRun(code', h, count[h]) {
      assert EmptyRun(code, h, count[h]);
      forall q | h <= q < h + count[h] ensures code'[q] == EMPTY_PAGE { assert Covers(count, h, q) && q !in flight; }
    }
  }

  lemma OwnerChanges(code: seq<int>, count: seq<int>, live: set<int>, flight: set<int>, p: int, n: int, owner: int)
    requires Tiles(code, count, live, flight) && owner != EMPTY_PAGE
    requires forall q | p <= q < p + n && 0 <= q < |code| :: code[q] != EMPTY_PAGE
    ensures Tiles(Filled(code, p, n, owner), count, live, flight)
  {
    var code' := Filled(code, p, n, owner);
    forall q | 0 <= q < |code| ensures code'[q] == EMPTY_PAGE <==> code[q] == EMPTY_PAGE {}
    forall h | h in live ensures EmptyRun(code', h, count[h]) { assert EmptyRun(code, h, count[h]); }
  }

  lemma HoleAt(code: seq<int>, count: seq<int>, next: seq<int>, head: int, list: seq<int>, flight: set<int>, k: nat)
    requires Listed(next, head, list) && |next| == |count| && Tiles(code, count, Elements(list), flight) && k < |list|
    ensures 0 <= list[k] < |next| && next[list[k]] == At(list, k + 1)
    ensures 0 < count[list[k]] <= |count|
  {
    assert NextAt(next, list, k) && list[k] in Elements(list) && EmptyRun(code, list[k], count[list[k]]);
  }

  /** Of the first n holes of the list, best is the first with the smallest remainder; NULL if none fits. */
  ghost predicate BestFit(list: seq<int>, count: seq<int>, n: int, upto: nat, best: int, at: int)
    requires upto <= |list|
  {
    if best == NULL then forall k | 0 <= k < upto :: Size(count, list[k]) < n
    else
      && 0 <= at < upto && list[at] == best && Size(count, best) >= n
      && forall k | 0 <= k < upto && Size(count, list[k]) >= n ::
           Size(count, best) <= Size(count, list[k]) && (k < at ==> Size(count, best) < Size(count, list[k]))
  }

  lemma FittingHole(code: seq<int>, count: seq<int>, next: seq<int>, head: int, list: seq<int>, flight: set<int>,
                    page: int, n: int, at: int)
    requires Listed(next, head, list) && |next| == |count| && Tiles(code, count, Elements(list), flight)
    requires 0 < n && 0 <= at < |list| && list[at] == page && Size(count, page) >= n
    ensures 0 <= page < |count| && n <= count[page] && page + count[page] <= |count| && EmptyRun(code, page, n)
    ensures next[page] == At(list, at + 1) && (forall h | h in list :: 0 <= h < |next|)
    ensures n < count[page] ==> page + n !in list
    ensures Run(page, n) !! flight
    ensures at > 0 ==> list[at - 1] in list
    ensures forall k: nat | k < |list| :: NextAt(next, list, k)
  {
    ListMembers(next, head, list);
    assert NextAt(next, list, at) && page in Elements(list) && EmptyRun(code, page, count[page]);
    forall p | p in Run(page, n) ensures p !in flight { assert Covers(count, page, p); }
    assert n < count[page] && page + n in list ==> page + n in Elements(list);
  }

  /** The next words after position at has been replaced by mid. */
  function Rewired(next: seq<int>, list: seq<int>, at: nat, mid: seq<int>): (r: seq<int>)
    requires at < |list| && |mid| <= 1 && (mid != [] ==> 0 <= mid[0] < |next|)
    requires forall h | h in list :: 0 <= h < |next|
    ensures |r| == |next|
  {
    var next1 := if mid == [] then next else next[mid[0] := At(list, at + 1)];
    if at == 0 then next1
    else
      assert list[at - 1] in list;
      next1[list[at - 1] := if mid == [] then At(list, at + 1) else mid[0]]
  }

  lemma RewiredList(next: seq<int>, head: int, list: seq<int>, at: nat, mid: seq<int>)
    requires Listed(next, head, list) && at < |list| && |mid| <= 1
    requires mid != [] ==> 0 <= mid[0] < |next| && mid[0] !in list
    ensures forall h | h in list :: 0 <= h < |next|
    ensures Listed(Rewired(next, list, at, mid), if at > 0 then head else if mid == [] then At(list, 1) else mid[0],
                   Spliced(list, at, mid))
  {
    ListMembers(next, head, list);
    var next' := Rewired(next, list, at, mid);
    forall k: nat | k < |list| && k != at ensures 0 <= list[k] < |next| &&
      next'[list[k]] == if k + 1 == at then (if mid == [] then At(list, at + 1) else mid[0]) else next[list[k]] {
      assert NextAt(next, list, k) && list[k] in list;
      if at > 0 { assert list[at - 1] in list; }
    }
    SpliceHole(next, head, list, at, mid, next');
  }

  lemma TakeWholeGood(code: seq<int>, count: seq<int>, next: seq<int>, head: int, list: seq<int>, flight: set<int>,
                      page: int, n: int, at: nat)
    requires Listed(next, head, list) && |next| == |count| && Tiles(code, count, Elements(list), flight)
    requires 0 < n && at < |list| && list[at] == page && 0 <= page < |count| && count[page] == n
    ensures forall h | h in list :: 0 <= h < |next|
    ensures Listed(Rewired(next, list, at, []), if at > 0 then head else At(list, 1), Spliced(list, at, []))
    ensures Tiles(code, count, Elements(Spliced(list, at, [])), flight + Run(page, n))
  {
    hide Tiles, Listed, Run, Rewired, Spliced;
    RewiredList(next, head, list, at, []);
    ListDistinct(next, head, list);
    SpliceDistinct(list, at, []);
    assert page in Elements(list);
    TakeWhole(code, count, Elements(list), flight, page);
    assert Elements(list) - {page} == Elements(Spliced(list, at, []));
  }

  lemma TakeFrontGood(code: seq<int>, count: seq<int>, next: seq<int>, head: int, list: seq<int>, flight: set<int>,
                      page: int, n: int, at: nat)
    requires Listed(next, head, list) && |next| == |count| && Tiles(code, count, Elements(list), flight)
    requires 0 < n && at < |list| && list[at] == page && 0 <= page < |count| && count[page] > n
    ensures (forall h | h in list :: 0 <= h < |next|) && 0 <= page + n < |count|
    ensures Listed(Rewired(next, list, at, [page + n]), if at > 0 then head else page + n,
                   Spliced(list, at, [page + n]))
    ensures Tiles(code, count[page + n := count[page] - n], Elements(Spliced(list, at, [page + n])),
                  flight + Run(page, n))
  {
    hide Tiles, Listed, Run, Rewired, Spliced;
    assert page in Elements(list);
    TakeFront(code, count, Elements(list), flight, page, n);
    assert page + n !in list;
    RewiredList(next, head, list, at, [page + n]);
    ListDistinct(next, head, list);
    SpliceDistinct(list, at, [page + n]);
    assert Elements(list) - {page} + {page + n} == Elements(Spliced(list, at, [page + n]));
  }

  lemma ListDistinct(next: seq<int>, head: int, list: seq<int>)
    requires Listed(next, head, list)
    ensures head == At(list, 0) && forall i, j | 0 <= i < j < |list| :: list[i] != list[j]
  {}

  /** A run of pages that are not empty becomes the first hole of the list. */
  lemma InitGood(code: seq<int>, count: seq<int>, next: seq<int>, head: int, list: seq<int>, flight: set<int>,
                 first: int, n: int)
    requires Listed(next, head, list) && Tiles(code, count, Elements(list), flight) && |next| == |code|
    requires 0 <= first && 0 < n && first + n <= |code| && forall q | first <= q < first + n :: code[q] != EMPTY_PAGE
    ensures Listed(next[first := head], first, [first] + list)
    ensures Tiles(Filled(code, first, n, EMPTY_PAGE), count[first := n], Elements([first] + list), flight)
  {
    assert code[first] != EMPTY_PAGE;
    assert first in list ==> first in Elements(list) && EmptyRun(code, first, count[first]);
    PushHole(next, head, list, first);
    AddHole(code, count, Elements(list), flight, first, n, Filled(code, first, n, EMPTY_PAGE));
    assert Elements([first] + list) == Elements(list) + {first};
  }

  // ---------------------------------------------------------------- FREE pages

  /** The FREE pages below upto have become EMPTY. */
  function Freed(code: seq<int>, upto: int): (r: seq<int>)
    ensures |r| == |code|
    ensures forall i | 0 <= i < |code| :: r[i] == if i < upto && code[i] == FREE_PAGE then EMPTY_PAGE else code[i]
  {
    seq(|code|, i requires 0 <= i < |code| => if i < upto && code[i] == FREE_PAGE then EMPTY_PAGE else code[i])
  }

  /** The pages from hole up to page are the run of FREE pages being measured. */
  predicate FreeRun(code: seq<int>, page: int, hole: int, n: int) {
    if hole == -1 then true
    else 0 <= hole && 0 < n && hole + n == page <= |code| && forall q | hole <= q < page :: code[q] == FREE_PAGE
  }

  /** The base entries that go with Freed. */
  function FreedBase(code: seq<int>, base: seq<int>, upto: int): (r: seq<int>)
    requires |base| == |code|
    ensures |r| == |base|
    ensures forall i | 0 <= i < |base| :: r[i] == if i < upto && code[i] == FREE_PAGE then NULL else base[i]
  {
    seq(|base|, i requires 0 <= i < |base| => if i < upto && code[i] == FREE_PAGE then NULL else base[i])
  }

  lemma NotFreed(code: seq<int>, base: seq<int>, p: nat)
    requires p < |code| == |base| && code[p] != FREE_PAGE
    ensures Freed(code, p) == Freed(code, p + 1) && FreedBase(code, base, p) == FreedBase(code, base, p + 1)
  {}

  lemma FreedRun(code: seq<int>, base: seq<int>, hole: int, n: int)
    requires FreeRun(code, hole + n, hole, n) && hole != -1 && |base| == |code|
    ensures Filled(Freed(code, hole), hole, n, EMPTY_PAGE) == Freed(code, hole + n)
    ensures Filled(FreedBase(code, base, hole), hole, n, NULL) == FreedBase(code, base, hole + n)
    ensures forall q | hole <= q < hole + n :: Freed(code, hole)[q] == FREE_PAGE
  {}

  // ---------------------------------------------------------------- holes of length 0

  lemma StartDelete(next: seq<int>, head: int, list: seq<int>, count: seq<int>)
    requires Listed(next, head, list)
    ensures head == At(list, 0) && Positive(list[..0], count) == list[..0] && list[0..] == list
  {}

  lemma DeleteLinks(next: seq<int>, head: int, list: seq<int>, k: nat)
    requires Listed(next, head, list) && k < |list|
    ensures 0 <= list[k] < |next| && next[list[k]] == At(list, k + 1) && (k > 0 ==> 0 <= list[k - 1] < |next|)
    ensures forall h | h in list :: 0 <= h < |next|
  {
    ListMembers(next, head, list);
    assert NextAt(next, list, k);
    if k > 0 { assert NextAt(next, list, k - 1); }
  }

  lemma DeleteZero(list: seq<int>, count: seq<int>, k: nat)
    requires k < |list| && Positive(list[..k], count) == list[..k] && Size(count, list[k]) == 0
    ensures Positive(Spliced(list, k, []), count) == Positive(list, count)
    ensures Spliced(list, k, [])[..k] == list[..k] && Spliced(list, k, [])[k..] == list[k + 1..]
    ensures Zeros(list[k..], count) == 1 + Zeros(list[k + 1..], count)
  {
    assert list[k..][1..] == list[k + 1..] && list == list[..k] + list[k..];
    PositiveSplit(list[..k], list[k..], count);
    PositiveSplit(list[..k], list[k + 1..], count);
    assert Spliced(list, k, []) == list[..k] + list[k + 1..];
  }

  lemma KeepPositive(list: seq<int>, count: seq<int>, k: nat)
    requires k < |list| && Positive(list[..k], count) == list[..k] && Size(count, list[k]) != 0
    ensures Positive(list[..k + 1], count) == list[..k + 1]
    ensures Zeros(list[k..], count) == Zeros(list[k + 1..], count)
  {
    assert list[k..][1..] == list[k + 1..] && list[..k + 1] == list[..k] + [list[k]];
    PositiveSplit(list[..k], [list[k]], count);
  }

  lemma AllDeleted(list: seq<int>, count: seq<int>, next: seq<int>, head: int, k: nat, left: int)
    requires Listed(next, head, list) && k <= |list| && Positive(list[..k], count) == list[..k]
    requires left == Zeros(list[k..], count) && (left == 0 || At(list, k) == NULL)
    ensures left == 0 && Positive(list, count) == list
  {
    ListMembers(next, head, list);
    if k < |list| { assert list[k] in list; }
    NoZeros(list[k..], count);
    assert list == list[..k] + list[k..];
    PositiveSplit(list[..k], list[k..], count);
  }

  // ---------------------------------------------------------------- pages in flight

  /** The page table as it would be if pages in flight had an owner already. */
  function Masked(code: seq<int>, flight: set<int>): (r: seq<int>)
    ensures |r| == |code| && forall p | 0 <= p < |code| :: r[p] == if p in flight then SYSTEM_PAGE else code[p]
  {
    seq(|code|, p requires 0 <= p < |code| => if p in flight then SYSTEM_PAGE else code[p])
  }

  predicate Taken(code: seq<int>, flight: set<int>) {
    forall p | p in flight :: 0 <= p < |code| && code[p] == EMPTY_PAGE
  }

  /** No hole ends where pages in flight begin. */
  predicate ClearOf(count: seq<int>, live: set<int>, flight: set<int>) {
    forall h | h in live :: h + Size(count, h) !in flight
  }

  lemma NothingMasked(code: seq<int>)
    ensures Masked(code, {}) == code
  {}

  lemma MaskTiles(code: seq<int>, count: seq<int>, live: set<int>, flight: set<int>)
    requires Tiles(code, count, live, flight)
    ensures Tiles(Masked(code, flight), count, live, {}) && Taken(code, flight)
  {
    var mask := Masked(code, flight);
    forall h | h in live ensures EmptyRun(mask, h, count[h]) {
      assert EmptyRun(code, h, count[h]);
      forall q | h <= q < h + count[h] ensures mask[q] == EMPTY_PAGE { assert Covers(count, h, q); }
    }
  }

  lemma UnmaskTiles(code: seq<int>, count: seq<int>, live: set<int>, flight: set<int>)
    requires Tiles(Masked(code, flight), count, live, {}) && Taken(code, flight)
    ensures Tiles(code, count, live, flight)
  {
    var mask := Masked(code, flight);
    forall h | h in live ensures EmptyRun(code, h, count[h]) {
      assert EmptyRun(mask, h, count[h]);
      forall q | h <= q < h + count[h] ensures code[q] == EMPTY_PAGE { assert mask[q] == EMPTY_PAGE; }
    }
    forall h, p | h in live && Covers(count, h, p) ensures p !in flight {
      assert EmptyRun(mask, h, count[h]) && mask[p] == EMPTY_PAGE;
    }
    forall p | 0 <= p < |code| && code[p] == EMPTY_PAGE && p !in flight
      ensures exists h :: h in live && Covers(count, h, p) {
      assert mask[p] == EMPTY_PAGE;
    }
  }

  /**
   A hole that ends at a page in flight swallows it, with whatever that page's first word
   says: then the page is in a hole, and can be taken a second time.  If the word is 0 the
   loop finds everything as it was, and turns forever.
   */
  lemma MergeIntoFlight(code: seq<int>, count: seq<int>, list: seq<int>, flight: set<int>, h: int)
    requires Tiles(code, count, Live(list, count), flight) && h in Live(list, count)
    requires h + Size(count, h) in flight
    ensures 0 <= h < h + count[h] < |count| == |code| && code[h + count[h]] == EMPTY_PAGE
    ensures var g := h + count[h];
            var count' := count[h := count[h] + count[g]][g := 0];
            && (count[g] > 0 ==>
                  && h in Live(list, count') && Covers(count', h, g)
                  && forall live: set<int> | h in live :: !Tiles(code, count', live, flight))
            && (count[g] == 0 ==> count' == count)
  {
    assert EmptyRun(code, h, count[h]);
    var g := h + count[h];
    var count' := count[h := count[h] + count[g]][g := 0];
    if count[g] > 0 { assert h in Live(list, count') && Covers(count', h, g); }
  }

  // ---------------------------------------------------------------- merging

  /** The holes at the first k positions of the list that still have pages are closed off. */
  ghost predicate Settled(code: seq<int>, count: seq<int>, list: seq<int>, k: nat)
    requires k <= |list|
  {
    forall i: nat | i < k && Size(count, list[i]) > 0 :: ClosedOff(code, count, list[i])
  }

  lemma TileAt(code: seq<int>, count: seq<int>, live: set<int>, h: int)
    requires Tiles(code, count, live, {}) && h in live
    ensures |code| == |count| && 0 <= h < |count| && EmptyRun(code, h, count[h])
  {}

  /** A hole swallows the hole that starts where it ends, wherever in the list that is. */
  lemma MergeStep(code: seq<int>, count: seq<int>, list: seq<int>, k: nat)
    requires Tiles(code, count, Live(list, count), {}) && k < |list| && list[k] in Live(list, count)
    requires forall i, j | 0 <= i < j < |list| :: list[i] != list[j]
    requires Settled(code, count, list, k) && !ClosedOff(code, count, list[k])
    ensures var h := list[k];
            0 <= h < |count| && count[h] > 0 && 0 <= h + count[h] < |count| && h + count[h] != h
    ensures var h := list[k];
            var g := h + count[h];
            var count' := count[h := count[h] + count[g]][g := 0];
            && count[g] > 0 && g in Live(list, count)
            && Tiles(code, count', Live(list, count'), {}) && h in Live(list, count')
            && Settled(code, count', list, k) && Zeros(list, count') == Zeros(list, count) + 1
  {
    hide ClosedOff, Tiles, Settled;
    var h := list[k];
    TileAt(code, count, Live(list, count), h);
    var g := h + count[h];
    NeighbourIsHole(code, count, Live(list, count), h);
    TileAt(code, count, Live(list, count), g);
    MergeTwo(code, count, Live(list, count), h, g);
    MergedLists(code, count, list, k, g, count[h := count[h] + count[g]][g := 0]);
  }

  /** The hole that has grown ends where the one it has swallowed did. */
  lemma StaysClear(count: seq<int>, list: seq<int>, flight: set<int>, h: int, g: int)
    requires h in Live(list, count) && g in Live(list, count) && g == h + count[h] && g != h
    requires 0 <= h < |count| && 0 <= g < |count| && ClearOf(count, Live(list, count), flight)
    ensures var count' := count[h := count[h] + count[g]][g := 0];
            ClearOf(count', Live(list, count'), flight)
  {
    var count' := count[h := count[h] + count[g]][g := 0];
    forall x | x in Live(list, count') ensures x + Size(count', x) !in flight {
      if x == h {
        assert x + Size(count', x) == g + Size(count, g);
      } else {
        assert x in Live(list, count);
      }
    }
  }

  lemma MergedLists(code: seq<int>, count: seq<int>, list: seq<int>, k: nat, g: int, count': seq<int>)
    requires k < |list| && 0 <= list[k] < |count| && 0 <= g < |count| && g in list && list[k] != g && count[g] > 0
    requires count[list[k]] > 0
    requires count' == count[list[k] := count[list[k]] + count[g]][g := 0] && Settled(code, count, list, k)
    requires forall i, j | 0 <= i < j < |list| :: list[i] != list[j]
    ensures Live(list, count') == Live(list, count) - {g}
    ensures Settled(code, count', list, k) && Zeros(list, count') == Zeros(list, count) + 1
  {
    ZeroOne(list, count, count', g);
    forall i: nat | i < k && Size(count', list[i]) > 0 ensures ClosedOff(code, count', list[i]) {
      assert list[i] != list[k] && list[i] != g && ClosedOff(code, count, list[i]);
    }
  }

  lemma LiveArePositive(list: seq<int>, count: seq<int>)
    ensures Elements(Positive(list, count)) == Live(list, count)
  {
    PositiveMembers(list, count);
    forall h ensures h in Elements(Positive(list, count)) <==> h in Live(list, count) {}
  }

  lemma MergeEnds(code: seq<int>, count: seq<int>, list: seq<int>)
    requires Tiles(code, count, Live(list, count), {}) && Settled(code, count, list, |list|)
    ensures Tiles(code, count, Elements(Positive(list, count)), {})
    ensures HolesAreMaximalRuns(code, count, Elements(Positive(list, count)))
  {
    LiveArePositive(list, count);
    forall h | h in Live(list, count) ensures ClosedOff(code, count, h) {
      var i :| 0 <= i < |list| && list[i] == h;
      assert Size(count, list[i]) > 0;
    }
    ClosedOffIsMaximal(code, count, Live(list, count));
  }

  lemma MergeStarts(code: seq<int>, count: seq<int>, list: seq<int>)
    requires Tiles(code, count, Elements(list), {})
    ensures Tiles(code, count, Live(list, count), {}) && Settled(code, count, list, 0) && Zeros(list, count) == 0
    ensures Live(list, count) == Elements(list)
  {
    forall h | h in list ensures h in Live(list, count) { assert h in Elements(list) && EmptyRun(code, h, count[h]); }
    assert Live(list, count) == Elements(list);
    NoZeros(list, count);
  }

  lemma ListEnds(next: seq<int>, head: int, list: seq<int>, k: nat)
    requires Listed(next, head, list) && k <= |list| && At(list, k) == NULL
    ensures k == |list|
  {
    ListMembers(next, head, list);
    assert k == |list| || At(list, k) in list;
  }

  lemma HoleRange(code: seq<int>, count: seq<int>, list: seq<int>, h: int)
    requires Tiles(code, count, Live(list, count), {}) && h in list && 0 <= h < |count| && count[h] > 0
    ensures h in Live(list, count) && h + count[h] <= |code|
    ensures ClosedOff(code, count, h) <==> h + count[h] == |code| || code[h + count[h]] != EMPTY_PAGE
  {
    assert EmptyRun(code, h, count[h]);
  }

  /** The state of merge_adjacent_holes before position k of the list. */
  ghost predicate MergingHoles(code: seq<int>, count: seq<int>, list: seq<int>, flight: set<int>, k: nat)
    requires k <= |list|
  {
    && Taken(code, flight) && ClearOf(count, Live(list, count), flight)
    && Tiles(Masked(code, flight), count, Live(list, count), {}) && Settled(Masked(code, flight), count, list, k)
  }

  lemma MergeRange(code: seq<int>, count: seq<int>, list: seq<int>, flight: set<int>, k: nat)
    requires k < |list| && MergingHoles(code, count, list, flight, k) && 0 <= list[k] < |count| && count[list[k]] > 0
    ensures var h := list[k];
            && h in Live(list, count) && h + count[h] <= |code|
            && (ClosedOff(Masked(code, flight), count, h) <==>
                  h + count[h] == |code| || code[h + count[h]] != EMPTY_PAGE)
  {
    HoleRange(Masked(code, flight), count, list, list[k]);
  }

  /** Swallowing the next hole keeps that state. */
  lemma MergeNext(code: seq<int>, count: seq<int>, list: seq<int>, flight: set<int>, k: nat)
    requires k < |list| && MergingHoles(code, count, list, flight, k) && list[k] in Live(list, count)
    requires (forall i, j | 0 <= i < j < |list| :: list[i] != list[j])
    requires !ClosedOff(Masked(code, flight), count, list[k])
    ensures var h := list[k];
            0 <= h < |count| && count[h] > 0 && 0 <= h + count[h] < |count| && h + count[h] != h
    ensures var h := list[k];
            var g := h + count[h];
            var count' := count[h := count[h] + count[g]][g := 0];
            && count[g] > 0 && MergingHoles(code, count', list, flight, k)
            && Zeros(list, count') == Zeros(list, count) + 1
  {
    hide Tiles, Settled, ClosedOff, Live, ClearOf;
    MergeStep(Masked(code, flight), count, list, k);
    StaysClear(count, list, flight, list[k], list[k] + count[list[k]]);
  }

  lemma MergeSettled(code: seq<int>, count: seq<int>, list: seq<int>, flight: set<int>, k: nat)
    requires k < |list| && MergingHoles(code, count, list, flight, k)
    requires Size(count, list[k]) > 0 ==> ClosedOff(Masked(code, flight), count, list[k])
    ensures MergingHoles(code, count, list, flight, k + 1)
  {}

  /**
   With the holes merged, an allocation of n pages succeeds exactly when there are n
   consecutive empty pages that no allocation has taken.
   */
  lemma AllocationSucceedsIff(code: seq<int>, count: seq<int>, list: seq<int>, flight: set<int>, n: int, best: int,
                              at: int)
    requires Tiles(code, count, Elements(list), flight) && 0 < n
    requires HolesAreMaximalRuns(Masked(code, flight), count, Elements(list))
    requires BestFit(list, count, n, |list|, best, at)
    ensures best != NULL <==> exists p :: EmptyRun(Masked(code, flight), p, n)
  {
    MaskTiles(code, count, Elements(list), flight);
    FitsIffRunExists(Masked(code, flight), count, Elements(list), n);
    if best != NULL {
      assert best in Elements(list) && count[best] >= n;
    }
  }

  /** The search may stop at the end of the list or at a perfect fit. */
  lemma BestOfAll(list: seq<int>, count: seq<int>, n: int, k: nat, best: int, at: int, rest: int)
    requires k <= |list| && 0 < n && BestFit(list, count, n, k, best, at)
    requires k == |list| || (best != NULL && rest <= 0)
    requires best != NULL ==> rest == Size(count, best) - n
    ensures BestFit(list, count, n, |list|, best, at)
    ensures best == NULL <==> forall h | h in list :: Size(count, h) < n
    ensures best != NULL ==>
              best in list && rest >= 0 && forall h | h in list && Size(count, h) >= n :: rest <= Size(count, h) - n
  {
    forall h | h in list && Size(count, h) >= n ensures best != NULL && rest <= Size(count, h) - n {
      var i :| 0 <= i < |list| && list[i] == h;
      assert Size(count, list[i]) >= n;
    }
    if best != NULL { assert list[at] in list; }
  }

  class PageTable {
    const total: nat
    const code: array<int>
    const base: array<int>
    const count: array<int>
    const next: array<int>
    var emptyPages: int
    ghost var list: seq<int>
    ghost var flight: set<int>

    predicate Arrays() {
      && code.Length == base.Length == count.Length == next.Length == total
      && code != base && code != count && code != next && base != count && base != next && count != next
    }

    ghost predicate Linked()
      reads this, next
    {
      Arrays() && Listed(next[..], emptyPages, list)
    }

    ghost predicate Valid()
      reads this, code, count, next
    {
      Linked() && Tiles(code[..], count[..], Elements(list), flight)
    }

    /** init_page_info: nothing is a heap page yet. */
    constructor (total: nat)
      ensures Valid() && list == [] && flight == {} && this.total == total
      ensures fresh(code) && fresh(base) && fresh(count) && fresh(next)
      ensures code[..] == seq(total, i => SYSTEM_PAGE) && base[..] == seq(total, i => NULL)
    {
      this.total := total;
      code := new int[total](i => SYSTEM_PAGE);
      base := new int[total](i => NULL);
      count := new int[total];
      next := new int[total];
      emptyPages := NULL;
      list := [];
      flight := {};
    }

    /** Give n entries from first on the same base and owner. */
    method SetPages(first: int, n: int, base_: int, owner: int)
      requires Arrays() && 0 <= first && 0 <= n && first + n <= total
      modifies code, base
      ensures code[..] == Filled(old(code[..]), first, n, owner)
      ensures base[..] == Filled(old(base[..]), first, n, base_)
    {
      var i := first;
      while i < first + n
        invariant first <= i <= first + n
        invariant code[..] == Filled(old(code[..]), first, i - first, owner)
        invariant base[..] == Filled(old(base[..]), first, i - first, base_)
      {
        base[i] := base_;
        code[i] := owner;
        i := i + 1;
      }
    }

    /** RTinit_empty_pages for a heap segment. */
    method InitEmptyPages(first: int, n: int)
      requires Valid() && 0 <= first && 0 < n && first + n <= total
      requires forall q | first <= q < first + n :: code[q] != EMPTY_PAGE
      modifies this`emptyPages, this`list, code, base, count, next
      ensures Valid() && list == [first] + old(list)
      ensures code[..] == Filled(old(code[..]), first, n, EMPTY_PAGE)
      ensures base[..] == Filled(old(base[..]), first, n, NULL)
      ensures count[..] == old(count[..])[first := n]
    {
      hide Listed, Tiles, Elements;
      InitGood(code[..], count[..], next[..], emptyPages, list, flight, first, n);
      SetPages(first, n, NULL, EMPTY_PAGE);
      count[first] := n;
      next[first] := emptyPages;
      emptyPages := first;
      list := [first] + list;
      assert count[..] == old(count[..])[first := n] && next[..] == old(next[..])[first := old(emptyPages)];
    }

    /** The search loop of allocate_empty_pages: the best fit, its predecessor and what it would leave over. */
    method FindBestFit(n: int) returns (best: int, bestPrev: int, rest: int, ghost at: int)
      requires Valid() && 0 < n
      ensures BestFit(list, count[..], n, |list|, best, at)
      ensures best == NULL <==> forall h | h in list :: Size(count[..], h) < n
      ensures best != NULL ==>
                && best in list && rest >= 0
                && forall h | h in list && Size(count[..], h) >= n :: rest <= Size(count[..], h) - n
      ensures best != NULL ==> 0 <= at < |list| && bestPrev == At(list, at - 1) && rest == Size(count[..], best) - n
    {
      hide Listed, Tiles, Elements;
      ListDistinct(next[..], emptyPages, list);
      ghost var k: nat := 0;
      best, bestPrev, at := NULL, NULL, -1;
      rest := total + 1;
      var prev, hole := NULL, emptyPages;
      while rest > 0 && hole != NULL
        invariant 0 <= k <= |list| && hole == At(list, k) && prev == At(list, k - 1)
        invariant BestFit(list, count[..], n, k, best, at)
        invariant if best == NULL then rest == total + 1
                  else 0 <= at < k && bestPrev == At(list, at - 1) && rest == Size(count[..], best) - n
        decreases |list| - k
      {
        HoleAt(code[..], count[..], next[..], emptyPages, list, flight, k);
        if count[hole] >= n {
          if count[hole] - n < rest {
            rest, best, bestPrev, at := count[hole] - n, hole, prev, k;
          }
        }
        prev := hole;
        hole := next[hole];
        k := k + 1;
      }
      if hole == NULL { ListEnds(next[..], emptyPages, list, k); }
      BestOfAll(list, count[..], n, k, best, at, rest);
    }

    /** allocate_empty_pages: take n pages from the front of the hole that fits best. */
    method AllocateEmptyPages(n: int) returns (page: int, ghost at: int)
      requires Valid() && 0 < n
      modifies this`emptyPages, this`list, this`flight, count, next
      ensures Valid()
      ensures BestFit(old(list), old(count[..]), n, |old(list)|, page, at)
      ensures code[..] == old(code[..]) && base[..] == old(base[..])
      ensures page == NULL ==> unchanged(this, count, next)
      ensures page != NULL ==>
                && 0 <= at < |old(list)| && flight == old(flight) + Run(page, n) && Run(page, n) !! old(flight)
                && EmptyRun(code[..], page, n)
                && (if old(count[..])[page] == n then list == Spliced(old(list), at, []) && count[..] == old(count[..])
                    else page + n < total && list == Spliced(old(list), at, [page + n]) &&
                         count[..] == old(count[..])[page + n := old(count[..])[page] - n])
    {
      hide Listed, Tiles, Elements, Run;
      ghost var count0, next0, list0 := count[..], next[..], list;
      var bestPrev, left;
      page, bestPrev, left, at := FindBestFit(n);
      if page != NULL {
        FittingHole(code[..], count0, next0, emptyPages, list, flight, page, n, at);
        if left == 0 {
          TakeWholeGood(code[..], count0, next0, emptyPages, list, flight, page, n, at);
        } else {
          TakeFrontGood(code[..], count0, next0, emptyPages, list, flight, page, n, at);
        }
        TakeFrom(page, bestPrev, n, left, at);
        list := Spliced(list0, at, if left == 0 then [] else [page + n]);
        flight := flight + Run(page, n);
      }
    }

    /** Take n pages off the front of the hole, leaving a hole of left pages or none. */
    method TakeFrom(best: int, bestPrev: int, n: int, left: int, ghost at: int)
      requires Linked() && 0 <= at < |list| && list[at] == best && bestPrev == At(list, at - 1)
      requires 0 <= best < total && 0 < n && n + left == count[best] && 0 <= left && best + count[best] <= total
      requires (left == 0 || best + n !in list) && next[best] == At(list, at + 1)
      requires forall h | h in list :: 0 <= h < total
      modifies this`emptyPages, count, next
      ensures count[..] == if left == 0 then old(count[..]) else old(count[..])[best + n := left]
      ensures next[..] == Rewired(old(next[..]), list, at, if left == 0 then [] else [best + n])
      ensures emptyPages == if at > 0 then old(emptyPages) else if left == 0 then At(list, 1) else best + n
    {
      hide Listed;
      var rest := next[best];
      if left != 0 {
        rest := best + n;
        count[rest] := left;
        next[rest] := next[best];
      }
      assert at > 0 ==> list[at - 1] in list;
      if bestPrev == NULL { emptyPages := rest; } else { next[bestPrev] := rest; }
    }

    /** The last loop of init_pages_for_group: the pages taken from a hole get an owner. */
    method Publish(page: int, n: int, owner: int)
      requires Valid() && 0 < n && Run(page, n) <= flight && owner != EMPTY_PAGE
      modifies this`flight, code, base
      ensures Valid() && flight == old(flight) - Run(page, n)
      ensures code[..] == Filled(old(code[..]), page, n, owner) && base[..] == Filled(old(base[..]), page, n, page)
    {
      assert page in Run(page, n) && page + n - 1 in Run(page, n);
      hide Listed, Elements, Run;
      PublishPages(code[..], count[..], Elements(list), flight, page, n, owner);
      SetPages(page, n, page, owner);
      flight := flight - Run(page, n);
    }

    // -------------------------------------------------------------- coalescing

    /**
     A group gives up n pages: identify_single_free_page leaves their base alone,
     identify_multiple_free_pages clears it.
     */
    method MarkFree(page: int, n: int, clear: bool)
      requires Valid() && 0 <= page && 0 <= n && page + n <= total
      requires forall q | page <= q < page + n :: code[q] != EMPTY_PAGE
      modifies code, base
      ensures Valid() && code[..] == Filled(old(code[..]), page, n, FREE_PAGE)
      ensures base[..] == if clear then Filled(old(base[..]), page, n, NULL) else old(base[..])
    {
      hide Listed, Elements;
      OwnerChanges(code[..], count[..], Elements(list), flight, page, n, FREE_PAGE);
      var i := 0;
      while i < n
        invariant 0 <= i <= n
        invariant code[..] == Filled(old(code[..]), page, i, FREE_PAGE)
        invariant base[..] == if clear then Filled(old(base[..]), page, i, NULL) else old(base[..])
        invariant count[..] == old(count[..]) && next[..] == old(next[..])
      {
        if clear { base[page + i] := NULL; }
        code[page + i] := FREE_PAGE;
        i := i + 1;
      }
    }

    /** A run of FREE pages that has been measured becomes the first hole. */
    method EndRun(hole: int, pageCount: int, ghost code0: seq<int>, ghost base0: seq<int>)
      requires Valid() && |code0| == |base0| == total
      requires hole != -1 && FreeRun(code0, hole + pageCount, hole, pageCount)
      requires code[..] == Freed(code0, hole) && base[..] == FreedBase(code0, base0, hole)
      modifies this`emptyPages, this`list, code, base, count, next
      ensures Valid() && list == [hole] + old(list)
      ensures code[..] == Freed(code0, hole + pageCount) && base[..] == FreedBase(code0, base0, hole + pageCount)
      ensures forall q | 0 <= q < total && code0[q] != FREE_PAGE :: count[q] == old(count[q])
    {
      hide Tiles, Listed, Elements;
      FreedRun(code0, base0, hole, pageCount);
      InitEmptyPages(hole, pageCount);
    }

    /** coalesce_free_pages: every run of FREE pages becomes a hole at the front of the list. */
    method CoalesceFreePages()
      requires Valid()
      modifies this`emptyPages, this`list, code, base, count, next
      ensures Valid()
      ensures code[..] == Freed(old(code[..]), total)
      ensures forall q | 0 <= q < total :: base[q] == if old(code[q]) == FREE_PAGE then NULL else old(base[q])
      ensures forall q | 0 <= q < total && old(code[q]) != FREE_PAGE :: count[q] == old(count[q])
      ensures |list| >= |old(list)| && list[|list| - |old(list)|..] == old(list)
    {
      assert Arrays();
      hide Tiles, Listed, Elements, Valid, Linked;
      ghost var code0, base0 := code[..], base[..];
      var nextPage, hole, pageCount := 0, -1, 0;
      while nextPage < total
        invariant 0 <= nextPage <= total && Valid()
        invariant FreeRun(code0, nextPage, hole, pageCount)
        invariant code[..] == Freed(code0, if hole == -1 then nextPage else hole)
        invariant base[..] == FreedBase(code0, base0, if hole == -1 then nextPage else hole)
        invariant forall q | 0 <= q < total && code0[q] != FREE_PAGE :: count[q] == old(count[q])
        invariant |list| >= |old(list)| && list[|list| - |old(list)|..] == old(list)
      {
        if code[nextPage] == FREE_PAGE {
          if hole == -1 {
            hole, pageCount := nextPage, 1;
          } else {
            pageCount := pageCount + 1;
          }
        } else {
          if hole != -1 {
            EndRun(hole, pageCount, code0, base0);
            hole, pageCount := -1, 0;
          }
          NotFreed(code0, base0, nextPage);
        }
        nextPage := nextPage + 1;
      }
      if hole != -1 { EndRun(hole, pageCount, code0, base0); }
    }

    /** delete_merged_holes: unlink the holes whose length is 0; its final assertion holds. */
    method DeleteMergedHoles(merged: int)
      requires Linked() && merged == Zeros(list, count[..])
      modifies this`emptyPages, this`list, next
      ensures Linked() && list == Positive(old(list), count[..])
    {
      hide Listed, Positive, Zeros;
      ghost var k: nat := 0;
      StartDelete(next[..], emptyPages, list, count[..]);
      var deleteCount := merged;
      var prev, hole := NULL, emptyPages;
      while deleteCount > 0 && hole != NULL
        invariant Linked() && 0 <= k <= |list| && hole == At(list, k) && prev == At(list, k - 1)
        invariant Positive(old(list), count[..]) == Positive(list, count[..])
        invariant Positive(list[..k], count[..]) == list[..k]
        invariant deleteCount == Zeros(list[k..], count[..])
        decreases |list| - k
      {
        DeleteLinks(next[..], emptyPages, list, k);
        if count[hole] == 0 {
          DeleteZero(list, count[..], k);
          RewiredList(next[..], emptyPages, list, k, []);
          ghost var next0 := next[..];
          if prev == NULL {
            emptyPages := next[hole];
            hole := emptyPages;
          } else {
            hole := next[hole];
            next[prev] := hole;
          }
          assert next[..] == Rewired(next0, list, k, []);
          list := Spliced(list, k, []);
          deleteCount := deleteCount - 1;
        } else {
          KeepPositive(list, count[..], k);
          prev := hole;
          hole := next[hole];
          k := k + 1;
        }
      }
      AllDeleted(list, count[..], next[..], emptyPages, k, deleteCount);
      assert deleteCount == 0;
    }

    /** merge_adjacent_holes before position k of the list. */
    ghost predicate Merging(k: nat, merged: int)
      reads this, code, count, next
    {
      && Linked() && k <= |list| && merged == Zeros(list, count[..])
      && MergingHoles(code[..], count[..], list, flight, k)
    }

    /** One turn of the inner loop: when the page where the hole ends is empty, take it for the next hole. */
    method Swallow(hole: int) returns (swallowed: bool)
      requires Arrays() && 0 <= hole < total && 0 <= count[hole]
      modifies count
      ensures var end := hole + old(count[hole]);
              && (swallowed <==> end < total && code[end] == EMPTY_PAGE)
              && count[..] == if swallowed then old(count[..])[hole := old(count[hole]) + old(count[end])][end := 0]
                              else old(count[..])
    {
      swallowed := false;
      var endPage := hole + count[hole];
      if endPage < total {
        if code[endPage] == EMPTY_PAGE {
          var adjacent := endPage;
          count[hole] := count[hole] + count[adjacent];
          count[adjacent] := 0;
          swallowed := true;
        }
      }
    }

    /** The body of the loop: swallow neighbour after neighbour. */
    method MergeFrom(hole: int, merged: int, ghost k: nat) returns (mergeCount: int)
      requires Merging(k, merged) && k < |list| && list[k] == hole && 0 <= hole < total
      modifies count
      ensures Merging(k + 1, mergeCount)
    {
      hide Listed, Elements, Live, ClosedOff, MergingHoles, Masked;
      ghost var mask := Masked(code[..], flight);
      mergeCount := merged;
      ListDistinct(next[..], emptyPages, list);
      if count[hole] > 0 {
        MergeRange(code[..], count[..], list, flight, k);
        var continueMerge := true;
        while continueMerge
          invariant Merging(k, mergeCount) && 0 < count[hole] <= total
          invariant !continueMerge ==> ClosedOff(mask, count[..], hole)
          decreases total - count[hole], continueMerge
        {
          MergeRange(code[..], count[..], list, flight, k);
          ghost var count0 := count[..];
          continueMerge := Swallow(hole);
          if continueMerge {
            MergeNext(code[..], count0, list, flight, k);
            mergeCount := mergeCount + 1;
            MergeRange(code[..], count[..], list, flight, k);
          }
        }
      }
      MergeSettled(code[..], count[..], list, flight, k);
    }

    /**
     merge_adjacent_holes, whatever order the list is in, when no hole ends at a page in
     flight: the holes become the longest runs of empty pages that are not in flight.
     */
    method MergeAdjacentHoles()
      requires Valid() && ClearOf(count[..], Elements(list), flight)
      modifies this`emptyPages, this`list, count, next
      ensures Valid()
      ensures HolesAreMaximalRuns(Masked(code[..], flight), count[..], Elements(list))
      ensures list == Positive(old(list), count[..])
    {
      hide Tiles, Listed, Elements, Live, ClosedOff, Settled, HolesAreMaximalRuns, Taken, ClearOf;
      ghost var mask := Masked(code[..], flight);
      MaskTiles(code[..], count[..], Elements(list), flight);
      MergeStarts(mask, count[..], list);
      ListDistinct(next[..], emptyPages, list);
      var mergeCount, hole := 0, emptyPages;
      ghost var k: nat := 0;
      while hole != NULL
        invariant Merging(k, mergeCount) && hole == At(list, k)
        invariant list == old(list) && emptyPages == old(emptyPages) && next[..] == old(next[..])
        decreases |list| - k
      {
        DeleteLinks(next[..], emptyPages, list, k);
        mergeCount := MergeFrom(hole, mergeCount, k);
        hole := next[hole];
        k := k + 1;
      }
      ListEnds(next[..], emptyPages, list, k);
      MergeEnds(mask, count[..], list);
      DeleteMergedHoles(mergeCount);
      UnmaskTiles(code[..], count[..], Elements(list), flight);
    }
  }

  /** A page taken from the front of the only hole, which is longer. */
  method TakeOne(table: PageTable, hole: int)
    requires table.Valid() && table.list == [hole] && 0 <= hole < table.total && table.count[hole] > 1
    modifies table`emptyPages, table`list, table`flight, table.count, table.next
    ensures table.Valid() && table.list == [hole + 1] && table.flight == old(table.flight) + {hole}
    ensures hole + 1 < table.total
    ensures table.count[..] == old(table.count[..])[hole + 1 := old(table.count[hole]) - 1]
    ensures table.code[..] == old(table.code[..])
  {
    assert Size(table.count[..], table.list[0]) == table.count[hole] && table.count.Length == table.total;
    hide Tiles, Listed;
    var page, _ := table.AllocateEmptyPages(1);
    assert page == hole && Run(page, 1) == {hole};
  }

  /**
   A block on the first of three pages; the second has been taken for another block that is
   being laid out, and its first word still is the length of the hole that started there.
   */
  method OneTaken() returns (table: PageTable)
    ensures fresh(table) && fresh(table.code) && fresh(table.base) && fresh(table.count) && fresh(table.next)
    ensures table.Valid() && table.list == [2] && table.flight == {1} && table.total == 3
    ensures table.code[..] == [5, EMPTY_PAGE, EMPTY_PAGE] && table.count[1] == 2
  {
    hide Tiles, Listed;
    table := new PageTable(3);
    table.InitEmptyPages(0, 3);
    TakeOne(table, 0);
    table.Publish(0, 1, 5);
    TakeOne(table, 1);
  }

  lemma FirstHole(code: seq<int>, count: seq<int>, list: seq<int>)
    requires Tiles(code, count, Elements(list), {1}) && |code| == 3 && code[0] == EMPTY_PAGE
    ensures 0 in Live(list, count) && count[0] == 1 && Live(list, count) == Elements(list)
  {
    forall h | h in list ensures h in Live(list, count) { assert h in Elements(list) && EmptyRun(code, h, count[h]); }
    var h :| h in Elements(list) && Covers(count, h, 0);
    assert EmptyRun(code, h, count[h]) && !Covers(count, h, 1);
  }

  /** The first block is given back: its hole ends at the taken page. */
  method OneGivenBack() returns (table: PageTable)
    ensures fresh(table) && fresh(table.count) && table.Valid() && table.flight == {1} && table.total == 3
    ensures 0 in Live(table.list, table.count[..]) && table.count[0] == 1 && table.count[1] == 2
    ensures Tiles(table.code[..], table.count[..], Live(table.list, table.count[..]), table.flight)
  {
    hide Listed, Elements, Tiles, Live;
    table := OneTaken();
    table.MarkFree(0, 1, false);
    table.CoalesceFreePages();
    FirstHole(table.code[..], table.count[..], table.list);
  }

  /** Without that condition merging goes wrong: one turn of the loop later the hole has all three pages. */
  method TakenPageIsSwallowed() returns (table: PageTable)
    ensures fresh(table) && table.Arrays() && table.total == 3 && table.flight == {1}
    ensures 0 in table.list && table.count[0] == 3 && Covers(table.count[..], 0, 1) && !table.Valid()
  {
    hide Tiles, Listed;
    table := OneGivenBack();
    MergeIntoFlight(table.code[..], table.count[..], table.list, table.flight, 0);
    assert 0 in Elements(table.list);
    var swallowed := table.Swallow(0);
    assert swallowed && table.count[..][0] == 3;
  }
}
