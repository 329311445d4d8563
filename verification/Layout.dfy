/**
 How the pages of a size group are cut into objects, and how an address inside an object
 leads back to the object's header.  Addresses are offsets from the start of the
 partition, which is page aligned; the group of index c has objects of 2^c bytes.
 */
module Layout {
  import opened Colours
  import opened Links
  import opened GroupList
  import opened Pages

  const MIN_GROUP_INDEX := 5
  const MAX_GROUP_INDEX := 24

  predicate IsGroup(c: int) { MIN_GROUP_INDEX <= c <= MAX_GROUP_INDEX }

  function Pow2(n: nat): (r: nat)
    ensures r > 0
  {
    if n == 0 then 1 else 2 * Pow2(n - 1)
  }

  lemma {:induction false} Pow2Sum(m: nat, n: nat)
    ensures Pow2(m + n) == Pow2(m) * Pow2(n)
  {
    if m > 0 { Pow2Sum(m - 1, n); }
  }

  /** Objects laid out at a time, and the pages they take. */
  function ObjectsPerBlock(c: int): nat
    requires IsGroup(c)
  {
    if c <= 12 then Pow2(12 - c) else 1
  }

  function PagesPerBlock(c: int): nat
    requires IsGroup(c)
  {
    if c <= 12 then 1 else Pow2(c - 12)
  }

  lemma PageIsPow2()
    ensures Pow2(12) == BYTES_PER_PAGE
  {
    assert Pow2(4) == 16;
    Pow2Sum(4, 4);
    Pow2Sum(8, 4);
  }

  /** The objects of a block fill its pages exactly. */
  lemma BlockIsFull(c: int)
    requires IsGroup(c)
    ensures ObjectsPerBlock(c) > 0 && PagesPerBlock(c) > 0
    ensures ObjectsPerBlock(c) * Pow2(c) == PagesPerBlock(c) * BYTES_PER_PAGE
  {
    PageIsPow2();
    if c <= 12 { Pow2Sum(12 - c, c); } else { Pow2Sum(c - 12, 12); }
  }

  lemma {:induction false} BlockAtIs(base: int, size: nat, j: nat)
    ensures BlockAt(base, size, j) == base + j * size
  {
    if j > 0 {
      BlockAtIs(base, size, j - 1);
      assert (j - 1) * size + size == j * size;
    }
  }

  function PageOf(a: int): int { a / BYTES_PER_PAGE }

  function PageStart(p: int): int { p * BYTES_PER_PAGE }

  function HeadersOn(p: int, c: int): seq<int>
    requires IsGroup(c)
  {
    Blocks(PageStart(p), Pow2(c), ObjectsPerBlock(c))
  }

  /** Every header of a block is on the block's first page. */
  lemma HeadersOnFirstPage(p: int, c: int)
    requires IsGroup(c) && p >= 0
    ensures forall a | a in HeadersOn(p, c) :: 0 <= a && PageOf(a) == p
    ensures HeadersOn(p, c) != [] && HeadersOn(p, c)[0] == PageStart(p)
  {
    BlockIsFull(c);
    var n, size := ObjectsPerBlock(c), Pow2(c);
    forall a | a in HeadersOn(p, c) ensures 0 <= a && PageOf(a) == p {
      var j :| 0 <= j < n && HeadersOn(p, c)[j] == a;
      BlockAtIs(PageStart(p), size, j);
      InBlock(j, n, size);
      if c > 12 { assert j == 0; }
    }
  }

  lemma Scaled(d: int, size: nat)
    ensures d >= 1 ==> d * size >= size
    ensures d <= -1 ==> d * size <= 0 - size
  {
    if d >= 1 {
      assert d * size == (d - 1) * size + size;
    } else if d <= -1 {
      assert d * size == (d + 1) * size - size;
    }
  }

  lemma InBlock(j: nat, n: nat, size: nat)
    requires j < n && size > 0
    ensures 0 <= j * size && j * size + size <= n * size
  {
    Scaled(n - j, size);
    assert n * size == j * size + (n - j) * size;
  }

  lemma MultipleOf32(p: int, j: int, m: int)
    ensures (p * 4096 + j * (m * 32)) % 32 == 0
  {
    assert j * (m * 32) == (j * m) * 32;
    DivUnique(p * 4096 + j * (m * 32), p * 128 + j * m, 0, 32);
  }

  /** Headers are 32-byte aligned: their low link bits are free, and each has a bit in the write vector. */
  lemma HeadersAreAligned(p: int, c: int)
    requires IsGroup(c)
    ensures forall a | a in HeadersOn(p, c) :: a % Pow2(MIN_GROUP_INDEX) == 0
    ensures Pow2(MIN_GROUP_INDEX) == 32
  {
    var size := Pow2(c);
    Pow2Sum(c - MIN_GROUP_INDEX, MIN_GROUP_INDEX);
    assert Pow2(5) == 32;
    var m := Pow2(c - MIN_GROUP_INDEX);
    forall a | a in HeadersOn(p, c) ensures a % 32 == 0 {
      var j: nat :| j < ObjectsPerBlock(c) && HeadersOn(p, c)[j] == a;
      BlockAtIs(PageStart(p), size, j);
      MultipleOf32(p, j, m);
    }
  }

  // ---------------------------------------------------------------- pages and headers

  /** The pages from b on are one block of group c. */
  predicate BlockOfPages(code: seq<int>, base: seq<int>, b: int, c: int)
    requires IsGroup(c) && |code| == |base|
  {
    0 <= b && b + PagesPerBlock(c) <= |code| && forall q | b <= q < b + PagesPerBlock(c) :: code[q] == c && base[q] == b
  }

  predicate OwnedPage(code: seq<int>, base: seq<int>, p: int)
    requires 0 <= p < |code| == |base|
  {
    IsGroup(code[p]) ==>
      BlockOfPages(code, base, base[p], code[p]) && base[p] <= p < base[p] + PagesPerBlock(code[p])
  }

  /** The page table is made of whole blocks. */
  ghost predicate Owned(code: seq<int>, base: seq<int>) {
    |code| == |base| && forall p | 0 <= p < |code| :: OwnedPage(code, base, p)
  }

  predicate HeaderAt(code: seq<int>, base: seq<int>, c: int, a: int)
    requires IsGroup(c) && |code| == |base|
  {
    0 <= a && PageOf(a) < |code| && code[PageOf(a)] == c && base[PageOf(a)] == PageOf(a) && a in HeadersOn(PageOf(a), c)
  }

  /** The headers of group c are the ones laid out on its blocks. */
  ghost predicate Keyed(code: seq<int>, base: seq<int>, c: int, colour: map<int, Colour>)
    requires IsGroup(c) && |code| == |base|
  {
    forall a :: a in colour <==> HeaderAt(code, base, c, a)
  }

  // ---------------------------------------------------------------- interior pointers

  /** interior_to_gcptr_3: the page's base for objects of a page or more, else the address rounded down to the size. */
  function InteriorToHeader(x: int, base: int, c: int): int
    requires IsGroup(c)
  {
    if Pow2(c) >= BYTES_PER_PAGE then PageStart(base) else x - x % Pow2(c)
  }

  const INTERIOR_PTR_RETENTION_LIMIT := 512
  const HEADER_BYTES := 16

  /** What the scanners do with an address of a page of group c: its header, or -1 if the address is too far inside. */
  function RetainedHeader(x: int, base: int, c: int): int
    requires IsGroup(c)
  {
    var a := InteriorToHeader(x, base, c);
    if x - a < INTERIOR_PTR_RETENTION_LIMIT + HEADER_BYTES then a else -1
  }

  lemma RoundDown(x: int, s: int, size: nat, n: nat)
    requires size > 0 && s % size == 0 && s <= x < s + n * size
    ensures var j := (x - s) / size;
            0 <= j < n && x - x % size == s + j * size && s + j * size <= x < s + j * size + size
  {
    var j := (x - s) / size;
    var q := s / size;
    assert s == q * size;
    assert x == (q + j) * size + (x - s) % size by { assert (q + j) * size == q * size + j * size; }
    DivUnique(x, q + j, (x - s) % size, size);
    Scaled(j - n + 1, size);
    assert (j - n + 1) * size == j * size - n * size + size;
  }

  lemma DivUnique(x: int, q: int, r: int, size: nat)
    requires size > 0 && x == q * size + r && 0 <= r < size
    ensures x / size == q && x % size == r
  {
    var d := x / size - q;
    assert d * size == r - x % size;
    Scaled(d, size);
  }

  lemma PageAligned(p: int, c: int)
    requires IsGroup(c) && c <= 12
    ensures PageStart(p) % Pow2(c) == 0 && Pow2(c) <= BYTES_PER_PAGE
  {
    BlockIsFull(c);
    var n, size := ObjectsPerBlock(c), Pow2(c);
    assert PageStart(p) == (p * n) * size;
    DivUnique(PageStart(p), p * n, 0, size);
  }

  lemma LargeIsLarge(c: int)
    requires IsGroup(c)
    ensures Pow2(c) >= BYTES_PER_PAGE <==> c >= 12
  {
    BlockIsFull(c);
    PageIsPow2();
    if c < 12 { Pow2Sum(12 - c, c); assert Pow2(12 - c) >= 2; }
    if c > 12 { Pow2Sum(c - 12, 12); }
  }

  /**
   Whatever address of a page of group c is looked up, the result is the header of the one
   object of the group whose block contains it.
   */
  lemma InteriorFindsItsObject(code: seq<int>, base: seq<int>, c: int, colour: map<int, Colour>, x: int)
    requires Owned(code, base) && IsGroup(c) && Keyed(code, base, c, colour)
    requires 0 <= x && PageOf(x) < |code| && code[PageOf(x)] == c
    ensures var a := InteriorToHeader(x, base[PageOf(x)], c);
            && a in colour && a <= x < a + Pow2(c)
            && forall b | b in colour && b <= x < b + Pow2(c) :: b == a
  {
    var p := PageOf(x);
    var a := InteriorToHeader(x, base[p], c);
    assert OwnedPage(code, base, p);
    InteriorInBlock(x, p, base[p], c);
    HeadersOnFirstPage(base[p], c);
    assert code[base[p]] == c && base[base[p]] == base[p];
    assert HeaderAt(code, base, c, a);
    forall b | b in colour && b <= x < b + Pow2(c) ensures b == a {
      OnlyOneObject(code, base, c, x, b);
    }
  }

  /**
   A word keeps an object exactly when it points into the first 528 bytes of it, so
   anywhere into an object of up to 512.
   */
  lemma NearPointersRetain(code: seq<int>, base: seq<int>, c: int, colour: map<int, Colour>, x: int, a: int)
    requires Owned(code, base) && IsGroup(c) && Keyed(code, base, c, colour) && a in colour
    requires 0 <= x && PageOf(x) < |code| && code[PageOf(x)] == c
    ensures RetainedHeader(x, base[PageOf(x)], c) == a <==>
            a <= x < a + Pow2(c) && x < a + INTERIOR_PTR_RETENTION_LIMIT + HEADER_BYTES
    ensures c <= 9 ==> RetainedHeader(x, base[PageOf(x)], c) != -1
  {
    InteriorFindsItsObject(code, base, c, colour, x);
    assert HeaderAt(code, base, c, a);
    if c <= 9 {
      Pow2Sum(9 - c, c);
      assert Pow2(9) == 512;
      Scaled(Pow2(9 - c), Pow2(c));
    }
  }

  lemma InteriorInBlock(x: int, p: int, b: int, c: int)
    requires IsGroup(c) && 0 <= x && p == PageOf(x) && 0 <= b <= p < b + PagesPerBlock(c)
    ensures var a := InteriorToHeader(x, b, c); a in HeadersOn(b, c) && a <= x < a + Pow2(c)
  {
    var n, size := ObjectsPerBlock(c), Pow2(c);
    BlockIsFull(c);
    LargeIsLarge(c);
    if c >= 12 {
      assert Pow2(0) == 1;
      HeadersOnFirstPage(b, c);
      assert x < PageStart(b) + PagesPerBlock(c) * BYTES_PER_PAGE;
      assert n == 1;
    } else {
      PageAligned(b, c);
      RoundDown(x, PageStart(b), size, n);
      var j := (x - PageStart(b)) / size;
      BlockAtIs(PageStart(b), size, j);
      assert HeadersOn(b, c)[j] == InteriorToHeader(x, b, c);
    }
  }

  /** Two objects of a group never share an address. */
  lemma OnlyOneObject(code: seq<int>, base: seq<int>, c: int, x: int, a: int)
    requires Owned(code, base) && IsGroup(c) && HeaderAt(code, base, c, a) && a <= x < a + Pow2(c)
    requires 0 <= x && PageOf(x) < |code| && code[PageOf(x)] == c
    ensures a == InteriorToHeader(x, base[PageOf(x)], c)
  {
    var n, size := ObjectsPerBlock(c), Pow2(c);
    var b := PageOf(a);
    BlockIsFull(c);
    LargeIsLarge(c);
    assert OwnedPage(code, base, b);
    var j :| 0 <= j < n && HeadersOn(b, c)[j] == a;
    BlockAtIs(PageStart(b), size, j);
    InBlock(j, n, size);
    assert PageStart(b) <= x < PageStart(b) + PagesPerBlock(c) * BYTES_PER_PAGE;
    assert b <= PageOf(x) < b + PagesPerBlock(c);
    assert base[PageOf(x)] == b;
    if c >= 12 {
      assert Pow2(0) == 1;
      assert j == 0;
    } else {
      PageAligned(b, c);
      RoundDown(x, PageStart(b), size, n);
      DivUnique(x - PageStart(b), j, x - a, size);
    }
  }
}
