/**
 The inside of an object: which size class it gets, where its metadata word is written,
 and which words the scanner reads.  Offsets are in bytes from the object's header.
 */
module Objects {
  import opened Layout

  const WORD_SIZE := 8

  /** What RTallocate is told about the body; Described is a metadata array that ends with -1. */
  datatype Metadata = NoPointers | Pointers | Custom | Described(md: seq<int>)

  /** A word of an object: data, or the metadata pointer that initialize_object_metadata writes. */
  datatype Word = Data(value: int) | Meta(md: seq<int>)

  const SC_NOPOINTERS := 0
  const SC_POINTERS := 1
  const SC_CUSTOM1 := 2
  const SC_METADATA := 3

  datatype GroupResult = InGroup(index: int) | NegativeSize | TooLarge(realSize: int)

  /** Division the way C divides: towards zero. */
  function Quotient(a: int, b: int): int
    requires b > 0
  {
    if a >= 0 then a / b else 0 - (0 - a) / b
  }

  // ---------------------------------------------------------------- size classes

  /** index is the least one from MIN_GROUP_INDEX on whose objects hold size bytes. */
  predicate LeastFit(size: int, index: int) {
    && index >= MIN_GROUP_INDEX && size <= Pow2(index)
    && (index > MIN_GROUP_INDEX ==> Pow2(index - 1) < size)
  }

  lemma {:induction false} Pow2Grows(m: nat, n: nat)
    requires m <= n
    ensures Pow2(m) <= Pow2(n)
  {
    if m < n { Pow2Grows(m, n - 1); }
  }

  /** There is only one least fit, and no smaller class at or above the minimum would do. */
  lemma LeastFitIsLeast(size: int, index: int, other: int)
    requires LeastFit(size, index) && other >= MIN_GROUP_INDEX
    ensures size <= Pow2(other) <==> index <= other
  {
    if index <= other { Pow2Grows(index, other); } else { Pow2Grows(other, index - 1); }
  }

  /** size_to_group_index */
  method SizeToGroupIndex(size: int) returns (r: int)
    requires size >= 0
    ensures LeastFit(size, r)
  {
    var s := size;
    var index: nat := 0;
    s := s - 1;
    while s != 0
      invariant size > 0 ==> s >= 0 && s * Pow2(index) <= size - 1 < (s + 1) * Pow2(index)
      invariant size > 0 && s == 0 && index > 0 ==> Pow2(index - 1) <= size - 1
      invariant size == 0 ==> (s == -1 && index == 0) || (s == 0 && index == 1)
      decreases if s < 0 then 0 - s else s
    {
      HalfStep(s, Pow2(index), size - 1);
      s := Quotient(s, 2);
      index := index + 1;
    }
    r := if MIN_GROUP_INDEX > index then MIN_GROUP_INDEX else index;
    assert Pow2(index) * 1 == Pow2(index);
    if index <= MIN_GROUP_INDEX { Pow2Grows(index, MIN_GROUP_INDEX); }
    assert size > 0 ==> size - 1 < Pow2(index);
    assert Pow2(5) == 32;
  }

  lemma HalfStep(s: int, p: nat, x: int)
    requires s != 0 && (s > 0 ==> s * p <= x < (s + 1) * p)
    ensures s > 0 ==> Quotient(s, 2) * (2 * p) <= x < (Quotient(s, 2) + 1) * (2 * p)
    ensures s > 0 && Quotient(s, 2) == 0 ==> p <= x
  {
    if s > 0 {
      var q, r := s / 2, s % 2;
      assert s * p == q * (2 * p) + r * p;
      assert (q + 1) * (2 * p) == q * (2 * p) + 2 * p;
      assert (s + 1) * p == q * (2 * p) + r * p + p;
      assert r == 0 || r == 1;
    }
  }

  /** allocation_group, with the metadata array's element size for described objects. */
  method AllocationGroup(metadata: Metadata, size: int) returns (r: GroupResult)
    requires metadata.Described? ==> metadata.md != [] && metadata.md[0] >= 0
    ensures r.NegativeSize? <==> size < 0
    ensures var need := HEADER_BYTES + if metadata.Described? then metadata.md[0] * size + WORD_SIZE else size;
            && (r.TooLarge? <==> size >= 0 && need > Pow2(MAX_GROUP_INDEX))
            && (r.TooLarge? ==> r.realSize == need)
            && (r.InGroup? ==>
                  && IsGroup(r.index) && need <= Pow2(r.index)
                  && forall other: nat | MIN_GROUP_INDEX <= other < r.index :: Pow2(other) < need)
  {
    if size >= 0 {
      var realSize;
      if metadata.Described? {
        var dataSize := metadata.md[0] * size + WORD_SIZE;
        realSize := dataSize + HEADER_BYTES;
        assert metadata.md[0] * size >= 0;
      } else {
        realSize := size + HEADER_BYTES;
      }
      var index := SizeToGroupIndex(realSize);
      forall other: nat | MIN_GROUP_INDEX <= other < index ensures Pow2(other) < realSize {
        LeastFitIsLeast(realSize, index, other);
      }
      if index > MAX_GROUP_INDEX {
        LeastFitIsLeast(realSize, index, MAX_GROUP_INDEX);
        r := TooLarge(realSize);
      } else {
        LeastFitIsLeast(realSize, index, MAX_GROUP_INDEX);
        r := InGroup(index);
      }
    } else {
      r := NegativeSize;
    }
  }

  // ---------------------------------------------------------------- writing and reading the metadata word

  /** An object of a group is an array of words; two of them are the header. */
  predicate IsObject(words: array<Word>, size: nat) {
    size == words.Length * WORD_SIZE && words.Length >= 4
  }

  /** What the scanner will be told about an object. */
  function StorageClass(metadata: Metadata): int {
    match metadata
    case NoPointers => SC_NOPOINTERS
    case Pointers => SC_POINTERS
    case Custom => SC_CUSTOM1
    case Described(_) => SC_METADATA
  }

  /** initialize_object_metadata: the storage class and the bytes of body left to clear. */
  method InitializeMetadata(metadata: Metadata, words: array<Word>, size: nat) returns (class_: int, bodySize: int)
    requires IsObject(words, size)
    modifies words
    ensures class_ == StorageClass(metadata)
    ensures bodySize == size - HEADER_BYTES - if metadata.Described? then WORD_SIZE else 0
    ensures words[..] == if metadata.Described? then old(words[..])[words.Length - 1 := Meta(metadata.md)]
                         else old(words[..])
  {
    bodySize := size - HEADER_BYTES;
    if metadata.Described? {
      var base := 2;
      var lastPtr := base + size / WORD_SIZE - 3;
      words[lastPtr] := Meta(metadata.md);
      class_ := SC_METADATA;
      bodySize := bodySize - WORD_SIZE;
    } else {
      class_ := match metadata
                case NoPointers => SC_NOPOINTERS
                case Pointers => SC_POINTERS
                case Custom => SC_CUSTOM1
                case Described(_) => SC_METADATA;
    }
  }

  /** initialize_object_body: clear bodySize bytes after the header. */
  method InitializeBody(metadata: Metadata, words: array<Word>, bodySize: nat)
    requires bodySize % WORD_SIZE == 0 && 2 + bodySize / WORD_SIZE <= words.Length
    modifies words
    ensures forall k | 0 <= k < words.Length ::
              words[k] == if !metadata.NoPointers? && 2 <= k < 2 + bodySize / WORD_SIZE then Data(0) else old(words[k])
  {
    if !metadata.NoPointers? {
      var k := 2;
      while k < 2 + bodySize / WORD_SIZE
        invariant 2 <= k <= 2 + bodySize / WORD_SIZE
        invariant forall i | 0 <= i < words.Length :: words[i] == if 2 <= i < k then Data(0) else old(words[i])
      {
        words[k] := Data(0);
        k := k + 1;
      }
    }
  }

  /**
   The end of RTallocate: the storage class says what the body is, the metadata word is
   still there after the body has been cleared, and a body without pointers is not touched.
   */
  method InitializeObject(metadata: Metadata, words: array<Word>, size: nat) returns (class_: int)
    requires IsObject(words, size)
    modifies words
    ensures class_ == StorageClass(metadata) && (class_ == SC_METADATA <==> metadata.Described?)
    ensures metadata.Described? ==> words[words.Length - 1] == Meta(metadata.md)
    ensures metadata.NoPointers? ==> words[..] == old(words[..])
    ensures !metadata.NoPointers? ==>
              forall k | 2 <= k < words.Length - (if metadata.Described? then 1 else 0) :: words[k] == Data(0)
    ensures words[0] == old(words[0]) && words[1] == old(words[1])
  {
    var bodySize;
    class_, bodySize := InitializeMetadata(metadata, words, size);
    InitializeBody(metadata, words, bodySize);
  }

  /** Number of fields the array lists before its -1. */
  function Fields(md: seq<int>, j: nat): nat
    decreases |md| - j
  {
    if j >= |md| || md[j] == -1 then 0 else 1 + Fields(md, j + 1)
  }

  predicate Terminated(md: seq<int>) {
    md != [] && 0 < md[0] && 1 + Fields(md, 1) < |md|
  }

  lemma {:induction false} FieldsUpTo(md: seq<int>, j: nat)
    requires j <= |md|
    ensures j + Fields(md, j) <= |md|
    ensures forall k | j <= k < j + Fields(md, j) :: md[k] != -1
    ensures j + Fields(md, j) < |md| ==> md[j + Fields(md, j)] == -1
    decreases |md| - j
  {
    if j < |md| && md[j] != -1 { FieldsUpTo(md, j + 1); }
  }

  function FieldOffset(md: seq<int>, i: int, j: nat): int
    requires j < |md|
  {
    HEADER_BYTES + i * md[0] + md[j]
  }

  /** The reads of elements 0 up to i, then of element i's fields before j. */
  ghost predicate Visited(md: seq<int>, visited: seq<int>, i: int, j: nat) {
    && md != []
    && (forall v | v in visited :: exists k, f :: IsVisit(md, i, j, k, f) && v == FieldOffset(md, k, f))
    && (forall k, f | IsVisit(md, i, j, k, f) :: FieldOffset(md, k, f) in visited)
  }

  predicate IsVisit(md: seq<int>, i: int, j: nat, k: int, f: int) {
    0 <= k <= i && 1 <= f < |md| && f <= Fields(md, 1) && (k == i ==> f < j)
  }

  lemma VisitNext(md: seq<int>, visited: seq<int>, i: int, j: nat)
    requires Visited(md, visited, i, j) && 0 <= i && 1 <= j <= Fields(md, 1) < |md|
    ensures Visited(md, visited + [FieldOffset(md, i, j)], i, j + 1)
  {
    var visited' := visited + [FieldOffset(md, i, j)];
    assert IsVisit(md, i, j + 1, i, j);
    forall v | v in visited' ensures exists k, f :: IsVisit(md, i, j + 1, k, f) && v == FieldOffset(md, k, f) {
      if v in visited {
        var k, f :| IsVisit(md, i, j, k, f) && v == FieldOffset(md, k, f);
        assert IsVisit(md, i, j + 1, k, f);
      }
    }
    forall k, f | IsVisit(md, i, j + 1, k, f) ensures FieldOffset(md, k, f) in visited' {
      if k == i && f == j {
        assert FieldOffset(md, k, f) == FieldOffset(md, i, j);
      } else {
        assert IsVisit(md, i, j, k, f);
      }
    }
  }

  lemma VisitRow(md: seq<int>, visited: seq<int>, i: int)
    requires Visited(md, visited, i, 1 + Fields(md, 1)) && 0 <= i
    ensures Visited(md, visited, i + 1, 1)
  {
    forall v | v in visited ensures exists k, f :: IsVisit(md, i + 1, 1, k, f) && v == FieldOffset(md, k, f) {
      var k, f :| IsVisit(md, i, 1 + Fields(md, 1), k, f) && v == FieldOffset(md, k, f);
      assert IsVisit(md, i + 1, 1, k, f);
    }
    forall k, f | IsVisit(md, i + 1, 1, k, f) ensures FieldOffset(md, k, f) in visited {
      assert IsVisit(md, i, 1 + Fields(md, 1), k, f);
    }
  }

  /** Element i lies inside a body of length bytes, and md lists j among the fields. */
  predicate IsField(md: seq<int>, length: int, i: int, j: int) {
    && md != [] && 0 <= i && (i + 1) * md[0] <= length
    && 1 <= j < |md| && forall k | 1 <= k <= j :: md[k] != -1
  }

  /** The reads are at the listed fields of the elements that fit, and nowhere else. */
  ghost predicate ReadsFields(md: seq<int>, length: int, visited: seq<int>) {
    && md != []
    && (forall i, j | IsField(md, length, i, j) :: HEADER_BYTES + i * md[0] + md[j] in visited)
    && (forall v | v in visited :: exists i, j :: IsField(md, length, i, j) && v == HEADER_BYTES + i * md[0] + md[j])
  }

  lemma VisitIsField(md: seq<int>, length: int, i: int, j: int)
    requires Terminated(md) && length >= 0
    ensures IsVisit(md, length / md[0], 1, i, j) <==> IsField(md, length, i, j)
  {
    FieldsUpTo(md, 1);
    var e := md[0];
    if 0 <= i < length / e { ElementFits(e, i, length); }
    if 0 <= i && (i + 1) * e <= length { CountFits(e, i + 1, length); }
  }

  lemma VisitedFields(md: seq<int>, length: int, visited: seq<int>)
    requires Terminated(md) && length >= 0 && Visited(md, visited, length / md[0], 1)
    ensures ReadsFields(md, length, visited)
  {
    var count := length / md[0];
    forall i, j | IsField(md, length, i, j) ensures HEADER_BYTES + i * md[0] + md[j] in visited {
      VisitIsField(md, length, i, j);
      assert FieldOffset(md, i, j) in visited;
    }
    forall v | v in visited ensures exists i, j :: IsField(md, length, i, j) && v == HEADER_BYTES + i * md[0] + md[j] {
      var i, j :| IsVisit(md, count, 1, i, j) && v == FieldOffset(md, i, j);
      VisitIsField(md, length, i, j);
    }
  }

  /** scan_memory_segment_with_metadata over a whole object: the offsets of the words it reads as pointers. */
  method ScanWithMetadata(words: array<Word>, size: nat) returns (visited: seq<int>)
    requires IsObject(words, size) && words[words.Length - 1].Meta? && Terminated(words[words.Length - 1].md)
    ensures ReadsFields(words[words.Length - 1].md, size - HEADER_BYTES - WORD_SIZE, visited)
  {
    var low, high := HEADER_BYTES, size;
    var lastPtr := high / WORD_SIZE - 1;
    var md := words[lastPtr].md;
    var elementSize := md[0];
    var length := high - low - WORD_SIZE;
    var count := length / elementSize;
    FieldsUpTo(md, 1);
    visited := [];
    var i := 0;
    while i < count
      invariant 0 <= i <= count && Visited(md, visited, i, 1)
    {
      var offset := low + i * elementSize;
      var j := 1;
      while md[j] != -1
        invariant 1 <= j <= 1 + Fields(md, 1) && Visited(md, visited, i, j)
        decreases |md| - j
      {
        visited := visited + [offset + md[j]];
        VisitNext(md, visited[..|visited| - 1], i, j);
        assert visited == visited[..|visited| - 1] + [FieldOffset(md, i, j)];
        j := j + 1;
      }
      VisitRow(md, visited, i);
      i := i + 1;
    }
    VisitedFields(md, length, visited);
  }

  /** The reads are at every word of the body, in order. */
  predicate ReadsBody(size: int, visited: seq<int>) {
    |visited| * WORD_SIZE == size - HEADER_BYTES &&
    forall k | 0 <= k < |visited| :: visited[k] == HEADER_BYTES + k * WORD_SIZE
  }

  /** scan_memory_segment over a whole body. */
  method ScanBody(words: array<Word>, size: nat) returns (visited: seq<int>)
    requires IsObject(words, size)
    ensures ReadsBody(size, visited)
  {
    visited := [];
    var next := HEADER_BYTES;
    while next < size
      invariant next == HEADER_BYTES + |visited| * WORD_SIZE <= size
      invariant forall k | 0 <= k < |visited| :: visited[k] == HEADER_BYTES + k * WORD_SIZE
    {
      visited := visited + [next];
      next := next + WORD_SIZE;
    }
  }

  /** scan_object; custom is what the foreign scanner of the custom class reads. */
  method ScanObject(words: array<Word>, size: nat, class_: int, custom: seq<int>) returns (visited: seq<int>)
    requires IsObject(words, size) && SC_NOPOINTERS <= class_ <= SC_METADATA
    requires class_ == SC_METADATA ==> words[words.Length - 1].Meta? && Terminated(words[words.Length - 1].md)
    ensures class_ == SC_NOPOINTERS ==> visited == []
    ensures class_ == SC_POINTERS ==> ReadsBody(size, visited)
    ensures class_ == SC_CUSTOM1 ==> visited == custom
    ensures class_ == SC_METADATA ==>
              ReadsFields(words[words.Length - 1].md, size - HEADER_BYTES - WORD_SIZE, visited)
  {
    visited := [];
    if class_ == SC_POINTERS {
      visited := ScanBody(words, size);
    } else if class_ == SC_CUSTOM1 {
      visited := custom;
    } else if class_ == SC_METADATA {
      visited := ScanWithMetadata(words, size);
    }
  }

  /**
   An object as RTallocate initializes it, then scanned: every word of its body, no word,
   what the foreign scanner reads, or the listed fields, as the allocation asked for.
   */
  method InitializeThenScan(metadata: Metadata, words: array<Word>, size: nat, custom: seq<int>)
    returns (visited: seq<int>)
    requires IsObject(words, size) && (metadata.Described? ==> Terminated(metadata.md))
    modifies words
    ensures metadata.NoPointers? ==> visited == []
    ensures metadata.Pointers? ==> ReadsBody(size, visited)
    ensures metadata.Custom? ==> visited == custom
    ensures metadata.Described? ==> ReadsFields(metadata.md, size - HEADER_BYTES - WORD_SIZE, visited)
  {
    var class_ := InitializeObject(metadata, words, size);
    visited := ScanObject(words, size, class_, custom);
  }

  /** Every field is inside its element. */
  predicate FieldsInside(md: seq<int>) {
    Terminated(md) && forall j | 1 <= j <= Fields(md, 1) :: 0 <= md[j] && md[j] + WORD_SIZE <= md[0]
  }

  /** Field j of element i, of n elements described by md. */
  predicate IsElementField(md: seq<int>, n: nat, i: int, j: int) { 0 <= i < n && 1 <= j < |md| && j <= Fields(md, 1) }

  /**
   An object with room for n described elements and the metadata word: the scan reads every
   field of all n, and every word it reads ends before the metadata word.
   */
  lemma ScanCoversTheElements(md: seq<int>, n: nat, c: int, visited: seq<int>)
    requires FieldsInside(md) && IsGroup(c) && HEADER_BYTES + md[0] * n + WORD_SIZE <= Pow2(c)
    requires ReadsFields(md, Pow2(c) - HEADER_BYTES - WORD_SIZE, visited)
    ensures forall i, j | IsElementField(md, n, i, j) :: HEADER_BYTES + i * md[0] + md[j] in visited
    ensures forall v | v in visited :: HEADER_BYTES <= v && v + WORD_SIZE <= Pow2(c) - WORD_SIZE
  {
    assert Terminated(md);
    var length := Pow2(c) - HEADER_BYTES - WORD_SIZE;
    hide ReadsFields, Pow2, FieldsInside, IsElementField;
    forall i, j | IsElementField(md, n, i, j) ensures HEADER_BYTES + i * md[0] + md[j] in visited {
      FieldIsRead(md, n, length, visited, i, j);
    }
    forall v | v in visited ensures HEADER_BYTES <= v && v + WORD_SIZE <= HEADER_BYTES + length {
      ReadIsInBody(md, length, visited, v);
    }
  }

  lemma FieldIsRead(md: seq<int>, n: nat, length: int, visited: seq<int>, i: int, j: int)
    requires Terminated(md) && md[0] * n <= length && ReadsFields(md, length, visited) && IsElementField(md, n, i, j)
    ensures HEADER_BYTES + i * md[0] + md[j] in visited
  {
    ElementIsField(md, n, length, i, j);
  }

  lemma ReadIsInBody(md: seq<int>, length: int, visited: seq<int>, v: int)
    requires FieldsInside(md) && ReadsFields(md, length, visited) && v in visited
    ensures HEADER_BYTES <= v && v + WORD_SIZE <= HEADER_BYTES + length
  {
    var i, j :| IsField(md, length, i, j) && v == HEADER_BYTES + i * md[0] + md[j];
    FieldInBody(md, length, i, j);
  }

  lemma ElementIsField(md: seq<int>, n: nat, length: int, i: int, j: int)
    requires Terminated(md) && md[0] * n <= length && IsElementField(md, n, i, j)
    ensures IsField(md, length, i, j)
  {
    var e := md[0];
    FieldsUpTo(md, 1);
    Scaled(n - i, e);
    assert (n - i) * e == e * n - i * e && (i + 1) * e == i * e + e;
  }

  lemma FieldInBody(md: seq<int>, length: int, i: int, j: int)
    requires FieldsInside(md) && IsField(md, length, i, j)
    ensures 0 <= i * md[0] + md[j] && i * md[0] + md[j] + WORD_SIZE <= length
  {
    ListedField(md, j);
    assert (i + 1) * md[0] == i * md[0] + md[0];
    Scaled(i, md[0]);
  }

  /** What stands before the -1 is one of the fields. */
  lemma ListedField(md: seq<int>, j: int)
    requires Terminated(md) && 1 <= j < |md| && forall k | 1 <= k <= j :: md[k] != -1
    ensures j <= Fields(md, 1)
  {
    FieldsUpTo(md, 1);
  }

  lemma CountFits(e: int, n: nat, length: int)
    requires e > 0 && e * n <= length
    ensures n <= length / e
  {
    var q := length / e;
    assert length == e * q + length % e;
    Scaled(n - q, e);
    assert (n - q) * e == e * n - e * q;
  }

  lemma ElementFits(e: int, k: int, length: int)
    requires e > 0 && 0 <= k < length / e
    ensures 0 <= k * e && k * e + e <= length
  {
    var q := length / e;
    assert length == q * e + length % e;
    Scaled(q - k, e);
    assert q * e == k * e + (q - k) * e;
    Scaled(k, e);
  }
}
