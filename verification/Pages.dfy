/**
 The page table and the list of holes.  A page's entry says EMPTY, FREE, SYSTEM, EXTERNAL
 or which size group owns it; a hole is a run of empty pages whose first page stores the
 length of the run and the link to the next hole of the list.  Addresses are page indices.
 */
module Pages {
  import opened Links

  const EMPTY_PAGE := 0
  const FREE_PAGE := 1
  const SYSTEM_PAGE := 2
  const EXTERNAL_PAGE := 3

  // ---------------------------------------------------------------- the list

  predicate NextAt(next: seq<int>, list: seq<int>, i: nat)
    requires i < |list|
  {
    0 <= list[i] < |next| && next[list[i]] == At(list, i + 1)
  }

  ghost predicate Listed(next: seq<int>, head: int, list: seq<int>) {
    && head == At(list, 0)
    && (forall i: nat | i < |list| :: NextAt(next, list, i))
    && (forall i, j | 0 <= i < j < |list| :: list[i] != list[j])
  }

  lemma ListMembers(next: seq<int>, head: int, list: seq<int>)
    requires Listed(next, head, list)
    ensures forall h | h in list :: 0 <= h < |next|
    ensures head == NULL <==> list == []
  {
    forall h | h in list ensures 0 <= h < |next| {
      var i :| 0 <= i < |list| && list[i] == h;
      assert NextAt(next, list, i);
    }
    if list != [] { assert NextAt(next, list, 0); }
  }

  // ---------------------------------------------------------------- what the holes cover

  predicate Covers(count: seq<int>, h: int, p: int) {
    0 <= h < |count| && h <= p < h + count[h]
  }

  predicate EmptyRun(code: seq<int>, p: int, n: int) {
    0 <= p && 0 < n && p + n <= |code| && forall q | p <= q < p + n :: code[q] == EMPTY_PAGE
  }

  /**
   The holes of live are disjoint and together cover exactly the empty pages that no
   allocation has taken yet.
   */
  ghost predicate Tiles(code: seq<int>, count: seq<int>, live: set<int>, flight: set<int>) {
    && |count| == |code|
    && (forall p | p in flight :: 0 <= p < |code| && code[p] == EMPTY_PAGE)
    && (forall h | h in live :: 0 <= h < |code| && EmptyRun(code, h, count[h]))
    && (forall g, h | g in live && h in live && g < h :: g + count[g] <= h)
    && (forall h, p | h in live && Covers(count, h, p) :: p !in flight)
    && (forall p | 0 <= p < |code| && code[p] == EMPTY_PAGE && p !in flight ::
          exists h :: h in live && Covers(count, h, p))
  }

  function Elements(list: seq<int>): set<int> { set h | h in list }

  function Size(count: seq<int>, h: int): int { if 0 <= h < |count| then count[h] else 0 }

  /** The holes of the list that have not been merged into another. */
  function Live(list: seq<int>, count: seq<int>): set<int> { set h | h in list && Size(count, h) != 0 }

  /** The n pages from p on. */
  function Run(p: int, n: int): (r: set<int>)
    ensures forall q :: q in r <==> p <= q < p + n
    ensures |r| == if n < 0 then 0 else n
    decreases if n < 0 then 0 else n
  {
    if n <= 0 then {} else Run(p, n - 1) + {p + n - 1}
  }

  /** Every hole stops at the end of the heap or at a page that is not empty. */
  predicate ClosedOff(code: seq<int>, count: seq<int>, h: int) {
    0 <= h < |count| && 0 <= count[h] && (h + count[h] >= |code| || code[h + count[h]] != EMPTY_PAGE)
  }

  /** A longest run of empty pages. */
  predicate Maximal(code: seq<int>, p: int, n: int) {
    EmptyRun(code, p, n) && (p == 0 || code[p - 1] != EMPTY_PAGE) && (p + n == |code| || code[p + n] != EMPTY_PAGE)
  }

  /** The holes are exactly the longest runs of empty pages. */
  ghost predicate HolesAreMaximalRuns(code: seq<int>, count: seq<int>, live: set<int>) {
    forall p, n :: Maximal(code, p, n) <==> p in live && 0 <= p < |count| && n == count[p]
  }

  lemma ClosedOffIsMaximal(code: seq<int>, count: seq<int>, live: set<int>)
    requires Tiles(code, count, live, {}) && forall h | h in live :: ClosedOff(code, count, h)
    ensures HolesAreMaximalRuns(code, count, live)
  {
    forall p, n ensures Maximal(code, p, n) <==> p in live && 0 <= p < |count| && n == count[p] {
      if p in live && 0 <= p < |count| && n == count[p] {
        assert EmptyRun(code, p, n);
        assert ClosedOff(code, count, p);
      }
      if Maximal(code, p, n) {
        assert code[p] == EMPTY_PAGE;
        var g :| g in live && Covers(count, g, p);
        assert EmptyRun(code, g, count[g]) && ClosedOff(code, count, g);
        assert g == p;
      }
    }
  }

  /** With the holes merged, a request fits into some hole exactly when that many consecutive empty pages exist. */
  lemma FitsIffRunExists(code: seq<int>, count: seq<int>, live: set<int>, n: int)
    requires Tiles(code, count, live, {}) && HolesAreMaximalRuns(code, count, live) && n > 0
    ensures (exists h :: h in live && 0 <= h < |count| && count[h] >= n) <==> exists p :: EmptyRun(code, p, n)
  {
    if h :| h in live && 0 <= h < |count| && count[h] >= n {
      assert EmptyRun(code, h, count[h]);
      assert EmptyRun(code, h, n);
    }
    if p :| EmptyRun(code, p, n) {
      assert code[p] == EMPTY_PAGE;
      var g :| g in live && Covers(count, g, p);
      assert Maximal(code, g, count[g]);
      assert g + count[g] >= p + n;
    }
  }

  // ---------------------------------------------------------------- conservation

  function Total(list: seq<int>, count: seq<int>): int
  {
    if list == [] then 0 else Size(count, list[0]) + Total(list[1..], count)
  }

  function Covered(list: seq<int>, count: seq<int>): set<int>
  {
    if list == [] then {} else Run(list[0], Size(count, list[0])) + Covered(list[1..], count)
  }

  lemma {:induction false} CoveredMembers(list: seq<int>, count: seq<int>)
    ensures forall p :: p in Covered(list, count) <==> exists h :: h in list && Covers(count, h, p)
  {
    if list != [] {
      CoveredMembers(list[1..], count);
      forall p ensures p in Covered(list, count) <==> exists h :: h in list && Covers(count, h, p) {
        if p in Run(list[0], Size(count, list[0])) { assert list[0] in list && Covers(count, list[0], p); }
        if h :| h in list && Covers(count, h, p) {
          if h != list[0] { assert h in list[1..]; }
        }
      }
    }
  }

  predicate Apart(list: seq<int>, count: seq<int>, i: nat, j: nat)
    requires i < |list| && j < |list|
  {
    Size(count, list[i]) > 0 && (list[i] + Size(count, list[i]) <= list[j] || list[j] + Size(count, list[j]) <= list[i])
  }

  lemma {:induction false} CoveredSize(list: seq<int>, count: seq<int>)
    requires forall i: nat | i < |list| :: Size(count, list[i]) > 0
    requires forall i: nat, j: nat | i < j < |list| :: Apart(list, count, i, j)
    ensures |Covered(list, count)| == Total(list, count)
  {
    if list != [] {
      var h, rest := list[0], list[1..];
      forall i: nat, j: nat | i < j < |rest| ensures Apart(rest, count, i, j) {
        assert Apart(list, count, i + 1, j + 1);
      }
      CoveredSize(rest, count);
      CoveredMembers(rest, count);
      forall g, p | g in rest && Covers(count, g, p) ensures p !in Run(h, Size(count, h)) {
        var j :| 0 <= j < |rest| && rest[j] == g;
        assert Apart(list, count, 0, j + 1);
      }
      assert Run(h, Size(count, h)) * Covered(rest, count) == {};
    }
  }

  /** Pages that some size group, the system or an allocation under way owns. */
  function Committed(code: seq<int>, flight: set<int>): set<int> {
    set p | 0 <= p < |code| && (code[p] != EMPTY_PAGE || p in flight)
  }

  const BYTES_PER_PAGE := 4096

  lemma ListApart(code: seq<int>, count: seq<int>, list: seq<int>, flight: set<int>)
    requires Tiles(code, count, Elements(list), flight) && forall i, j | 0 <= i < j < |list| :: list[i] != list[j]
    ensures forall i: nat | i < |list| :: Size(count, list[i]) > 0
    ensures forall i: nat, j: nat | i < j < |list| :: Apart(list, count, i, j)
  {
    forall i: nat | i < |list| ensures list[i] in Elements(list) && Size(count, list[i]) > 0 {
      assert list[i] in Elements(list) && EmptyRun(code, list[i], count[list[i]]);
    }
  }

  /** Hole bytes plus committed bytes are always the size of the partition. */
  lemma HolesAndCommittedFillTheHeap(code: seq<int>, count: seq<int>, list: seq<int>, flight: set<int>)
    requires Tiles(code, count, Elements(list), flight) && forall i, j | 0 <= i < j < |list| :: list[i] != list[j]
    ensures Total(list, count) * BYTES_PER_PAGE + |Committed(code, flight)| * BYTES_PER_PAGE == |code| * BYTES_PER_PAGE
  {
    ListApart(code, count, list, flight);
    CoveredSize(list, count);
    CoveredMembers(list, count);
    var all := Run(0, |code|);
    forall p ensures p in all <==> p in Covered(list, count) || p in Committed(code, flight) {
      if p in all && p !in Committed(code, flight) {
        var h :| h in Elements(list) && Covers(count, h, p);
        assert h in list;
      }
      if h :| h in list && Covers(count, h, p) { assert h in Elements(list) && EmptyRun(code, h, count[h]); }
    }
    assert all == Covered(list, count) + Committed(code, flight);
    forall p | p in Covered(list, count) ensures p !in Committed(code, flight) {
      var h :| h in list && Covers(count, h, p);
      assert h in Elements(list) && EmptyRun(code, h, count[h]);
    }
    assert Covered(list, count) * Committed(code, flight) == {};
  }

  // ---------------------------------------------------------------- adding a hole

  /** A run of pages nobody claims becomes a hole. */
  lemma AddHole(code: seq<int>, count: seq<int>, live: set<int>, flight: set<int>, p: int, n: int, code': seq<int>)
    requires Tiles(code, count, live, flight) && 0 <= p && 0 < n && p + n <= |code| == |code'|
    requires forall q | p <= q < p + n :: code[q] != EMPTY_PAGE && code'[q] == EMPTY_PAGE
    requires forall q | 0 <= q < |code| && !(p <= q < p + n) :: code'[q] == code[q]
    ensures Tiles(code', count[p := n], live + {p}, flight)
  {
    var count' := count[p := n];
    var live' := live + {p};
    assert code[p] != EMPTY_PAGE;
    assert p in live ==> EmptyRun(code, p, count[p]);
    assert p !in live;
    forall h | h in live ensures EmptyRun(code, h, count[h]) && (h + count[h] <= p || p + n <= h) {
      assert EmptyRun(code, h, count[h]);
      assert code[h] == EMPTY_PAGE && code[p] != EMPTY_PAGE;
    }
    assert forall h | h in live :: count'[h] == count[h];
    assert EmptyRun(code', p, n);
    forall h | h in live' ensures EmptyRun(code', h, count'[h]) {
      if h != p { assert EmptyRun(code, h, count[h]); }
    }
    forall q | 0 <= q < |code| && code'[q] == EMPTY_PAGE && q !in flight
      ensures exists h :: h in live' && Covers(count', h, q) {
      if p <= q < p + n {
        assert Covers(count', p, q);
      } else {
        var h :| h in live && Covers(count, h, q);
        assert Covers(count', h, q);
      }
    }
    forall h, q | h in live' && Covers(count', h, q) ensures q !in flight {
      if h == p { assert code[q] != EMPTY_PAGE; } else { assert Covers(count, h, q); }
    }
  }

  // ---------------------------------------------------------------- merging

  /** A hole that ends at an empty page ends at the start of another hole. */
  lemma NeighbourIsHole(code: seq<int>, count: seq<int>, live: set<int>, h: int)
    requires Tiles(code, count, live, {}) && h in live && !ClosedOff(code, count, h)
    ensures h + count[h] in live && h + count[h] != h
  {
    var end := h + count[h];
    assert EmptyRun(code, h, count[h]);
    var g :| g in live && Covers(count, g, end);
  }

  lemma MergeTwo(code: seq<int>, count: seq<int>, live: set<int>, h: int, g: int)
    requires Tiles(code, count, live, {}) && h in live && g in live && g == h + count[h] && g != h
    ensures Tiles(code, count[h := count[h] + count[g]][g := 0], live - {g}, {})
  {
    var count' := count[h := count[h] + count[g]][g := 0];
    var live' := live - {g};
    assert EmptyRun(code, h, count[h]) && EmptyRun(code, g, count[g]);
    assert EmptyRun(code, h, count'[h]);
    forall x | x in live' ensures EmptyRun(code, x, count'[x]) {
      if x != h { assert EmptyRun(code, x, count[x]); }
    }
    forall p | 0 <= p < |code| && code[p] == EMPTY_PAGE ensures exists x :: x in live' && Covers(count', x, p) {
      var x :| x in live && Covers(count, x, p);
      assert Covers(count', if x == g then h else x, p);
    }
  }

  function Zeros(list: seq<int>, count: seq<int>): nat
  {
    if list == [] then 0 else (if Size(count, list[0]) == 0 then 1 else 0) + Zeros(list[1..], count)
  }

  function Positive(list: seq<int>, count: seq<int>): seq<int>
  {
    if list == [] then [] else (if Size(count, list[0]) == 0 then [] else [list[0]]) + Positive(list[1..], count)
  }

  /** Zeroing one hole's length adds one to the zeros, wherever it is in the list. */
  lemma {:induction false} ZeroOne(list: seq<int>, count: seq<int>, count': seq<int>, g: int)
    requires forall i, j | 0 <= i < j < |list| :: list[i] != list[j]
    requires forall h | h in list && h != g :: Size(count', h) == 0 <==> Size(count, h) == 0
    requires g in list ==> Size(count, g) != 0 && Size(count', g) == 0
    ensures Zeros(list, count') == Zeros(list, count) + (if g in list then 1 else 0)
  {
    if list != [] {
      ZeroOne(list[1..], count, count', g);
      assert list == [list[0]] + list[1..];
    }
  }

  lemma {:induction false} NoZeros(list: seq<int>, count: seq<int>)
    ensures Zeros(list, count) == 0 <==> forall h | h in list :: Size(count, h) != 0
    ensures Zeros(list, count) == 0 ==> Positive(list, count) == list
  {
    if list != [] {
      NoZeros(list[1..], count);
      assert list == [list[0]] + list[1..];
    }
  }

  lemma {:induction false} PositiveSplit(a: seq<int>, b: seq<int>, count: seq<int>)
    ensures Positive(a + b, count) == Positive(a, count) + Positive(b, count)
  {
    if a == [] {
      assert a + b == b;
    } else {
      assert (a + b)[0] == a[0] && (a + b)[1..] == a[1..] + b;
      PositiveSplit(a[1..], b, count);
    }
  }

  lemma {:induction false} PositiveMembers(list: seq<int>, count: seq<int>)
    ensures forall h :: h in Positive(list, count) <==> h in list && Size(count, h) != 0
    ensures (forall i, j | 0 <= i < j < |list| :: list[i] != list[j]) ==>
            forall i, j | 0 <= i < j < |Positive(list, count)| :: Positive(list, count)[i] != Positive(list, count)[j]
    ensures |Positive(list, count)| + Zeros(list, count) == |list|
  {
    if list != [] {
      PositiveMembers(list[1..], count);
      assert list == [list[0]] + list[1..];
      assert forall i, j | 0 <= i < j < |list[1..]| :: list[1..][i] == list[i + 1] && list[1..][j] == list[j + 1];
    }
  }
}
