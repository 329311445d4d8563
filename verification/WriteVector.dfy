/**
 The write vector: one bit for every 32 bytes of the partition, packed into 64-bit words.
 Mutators set bits while the collector sweeps the words.  Headers are offsets from the
 start of the partition.
 */
module WriteVectors {
  const MIN_GROUP_SIZE := 32
  const BITS_PER_LONG := 64
  const WORD_SPAN := 2048 // bytes of the partition one word stands for

  // ---------------------------------------------------------------- bits

  /** A word is its 64 bits. */
  type Word = w: seq<bool> | |w| == 64 witness seq(64, _ => false)

  const ZERO: Word := seq(64, _ => false)

  /** Or with a one-bit mask sets that bit and no other. */
  lemma OrSetsOneBit(w: bv64, b: bv64, c: bv64)
    requires b < 64 && c < 64
    ensures (w | (1 << b)) & (1 << c) != 0 <==> b == c || w & (1 << c) != 0
  {
    if b == c { OrSame(w, b); } else { OrOther(w, b, c); }
  }

  lemma OrSame(w: bv64, b: bv64)
    requires b < 64
    ensures (w | (1 << b)) & (1 << b) != 0
  {}

  lemma OrOther(w: bv64, b: bv64, c: bv64)
    requires b < 64 && c < 64 && b != c
    ensures (w | (1 << b)) & (1 << c) != 0 <==> w & (1 << c) != 0
  {}

  /** And with the complement of a one-bit mask clears that bit and no other. */
  lemma AndClearsOneBit(w: bv64, b: bv64, c: bv64)
    requires b < 64 && c < 64
    ensures (w & !(1 << b)) & (1 << c) != 0 <==> b != c && w & (1 << c) != 0
  {
    if b == c { AndSame(w, b); } else { AndOther(w, b, c); }
  }

  lemma AndSame(w: bv64, b: bv64)
    requires b < 64
    ensures (w & !(1 << b)) & (1 << b) == 0
  {}

  lemma AndOther(w: bv64, b: bv64, c: bv64)
    requires b < 64 && c < 64 && b != c
    ensures (w & !(1 << b)) & (1 << c) != 0 <==> w & (1 << c) != 0
  {
    MasksDisjoint(b, c);
    Unmasked(w, 1 << b, 1 << c);
  }

  lemma MasksDisjoint(b: bv64, c: bv64)
    requires b < 64 && c < 64 && b != c
    ensures (1 << b) & (1 << c) == 0 as bv64
  {}

  lemma Unmasked(w: bv64, m: bv64, n: bv64)
    requires m & n == 0
    ensures (w & !m) & n == w & n
  {}

  // ---------------------------------------------------------------- headers and their bits

  function WordOf(h: int): int { h / WORD_SPAN }

  function BitOf(h: int): nat { (h % WORD_SPAN) / MIN_GROUP_SIZE }

  /** The header the sweep computes for a word and a bit. */
  function HeaderOf(i: int, b: int): int { i * WORD_SPAN + b * MIN_GROUP_SIZE }

  predicate IsHeader(h: int, words: int) {
    0 <= h && h % MIN_GROUP_SIZE == 0 && h < words * WORD_SPAN
  }

  /** The two maps invert each other, and no header's word is out of bounds. */
  lemma HeaderRoundTrip(h: int, words: nat)
    requires IsHeader(h, words)
    ensures 0 <= WordOf(h) < words && BitOf(h) < BITS_PER_LONG
    ensures HeaderOf(WordOf(h), BitOf(h)) == h
  {}

  lemma BitRoundTrip(i: nat, b: nat, words: nat)
    requires i < words && b < BITS_PER_LONG
    ensures IsHeader(HeaderOf(i, b), words) && WordOf(HeaderOf(i, b)) == i && BitOf(HeaderOf(i, b)) == b
  {}

  /** A partition of whole pages has a bit for every 32-byte boundary in it. */
  lemma EveryHeaderHasABit(bytes: nat, h: int)
    requires bytes % 4096 == 0 && 0 <= h < bytes && h % MIN_GROUP_SIZE == 0
    ensures IsHeader(h, bytes / (MIN_GROUP_SIZE * BITS_PER_LONG))
  {}

  predicate Marked(words: seq<Word>, h: int) {
    IsHeader(h, |words|) && BitOf(h) < BITS_PER_LONG && 0 <= WordOf(h) < |words| && words[WordOf(h)][BitOf(h)]
  }

  lemma MarkOne(words: seq<Word>, h: int)
    requires IsHeader(h, |words|)
    ensures 0 <= WordOf(h) < |words| && BitOf(h) < BITS_PER_LONG
    ensures var words' := words[WordOf(h) := words[WordOf(h)][BitOf(h) := true]];
            forall g :: Marked(words', g) <==> g == h || Marked(words, g)
  {
    HeaderRoundTrip(h, |words|);
    var words' := words[WordOf(h) := words[WordOf(h)][BitOf(h) := true]];
    forall g ensures Marked(words', g) <==> g == h || Marked(words, g) {
      if IsHeader(g, |words|) {
        HeaderRoundTrip(g, |words|);
        if WordOf(g) == WordOf(h) && BitOf(g) == BitOf(h) { assert g == h; }
      }
    }
  }

  lemma ClearOne(words: seq<Word>, i: nat, b: nat)
    requires i < |words| && b < BITS_PER_LONG
    ensures var words' := words[i := words[i][b := false]];
            forall g :: Marked(words', g) <==> g != HeaderOf(i, b) && Marked(words, g)
  {
    BitRoundTrip(i, b, |words|);
    var words' := words[i := words[i][b := false]];
    forall g ensures Marked(words', g) <==> g != HeaderOf(i, b) && Marked(words, g) {
      if IsHeader(g, |words|) {
        HeaderRoundTrip(g, |words|);
        if WordOf(g) == i && BitOf(g) == b { assert g == HeaderOf(i, b); }
      }
    }
  }

  /** The headers whose bits are set. */
  function MarkedHeaders(words: seq<Word>): (r: set<int>)
    ensures forall h :: h in r <==> Marked(words, h)
  {
    set h | 0 <= h < |words| * WORD_SPAN && Marked(words, h)
  }

  // ---------------------------------------------------------------- the sweep

  /**
   What a sweep has achieved when it stands at the bit of header at: start is the vector
   it began with, late what other threads have marked meanwhile, white what is still white,
   found the headers whose bits it has cleared.
   */
  ghost predicate Sweeping(start: seq<Word>, words: seq<Word>, late: set<int>, white: set<int>, at: int,
                           found: set<int>) {
    && |words| == |start|
    && (forall h | Marked(words, h) :: h in late || (h >= at && Marked(start, h)))
    && (forall h | h in late :: IsHeader(h, |words|) && (Marked(words, h) || h !in white))
    && (forall h | Marked(start, h) :: if h < at then h in found else Marked(words, h))
    && (forall h | h in found :: h < at && h !in white && (Marked(start, h) || h in late))
  }

  /** Only marked objects have been made gray. */
  ghost predicate Grayed(start: seq<Word>, white0: set<int>, white: set<int>, late: set<int>) {
    white <= white0 && forall h | h in white0 && h !in white :: Marked(start, h) || h in late
  }

  lemma GrayedLater(start: seq<Word>, white0: set<int>, white: set<int>, late: set<int>, later: set<int>)
    requires Grayed(start, white0, white, late) && late <= later
    ensures Grayed(start, white0, white, later)
  {}

  lemma GrayedHere(start: seq<Word>, words: seq<Word>, white0: set<int>, white: set<int>, late: set<int>, at: int,
                   found: set<int>)
    requires Sweeping(start, words, late, white, at, found) && Marked(words, at) && Grayed(start, white0, white, late)
    ensures Grayed(start, white0, white - {at}, late)
  {}

  lemma MarkedBit(words: seq<Word>, i: nat, b: nat)
    requires i < |words| && b < BITS_PER_LONG
    ensures words[i][b] <==> Marked(words, HeaderOf(i, b))
  {
    BitRoundTrip(i, b, |words|);
  }

  lemma SweepStarts(start: seq<Word>, white: set<int>)
    ensures Sweeping(start, start, {}, white, 0, {})
  {}

  /**
   A finished sweep: what was marked when it started is no longer white; what has been
   marked since is still marked or no longer white; the bits cleared are those of all that
   was marked at the start and of nothing but that and what has been marked since;
   undisturbed, it leaves the vector clear.
   */
  lemma SweepMeaning(start: seq<Word>, words: seq<Word>, late: set<int>, white: set<int>, found: set<int>)
    requires Sweeping(start, words, late, white, |words| * WORD_SPAN, found)
    ensures forall h | Marked(start, h) :: h !in white
    ensures forall h | h in late :: Marked(words, h) || h !in white
    ensures MarkedHeaders(start) <= found <= MarkedHeaders(start) + late
    ensures late == {} ==> found == MarkedHeaders(start) && forall h :: !Marked(words, h)
  {
    forall h | Marked(start, h) || Marked(words, h) ensures h < |words| * WORD_SPAN { assert IsHeader(h, |words|); }
  }

  lemma SweepMark(start: seq<Word>, words: seq<Word>, late: set<int>, white: set<int>, at: int, found: set<int>,
                  words': seq<Word>, hs: seq<int>)
    requires Sweeping(start, words, late, white, at, found) && |words'| == |words|
    requires forall h | h in hs :: IsHeader(h, |words|)
    requires forall g :: Marked(words', g) <==> g in hs || Marked(words, g)
    ensures Sweeping(start, words', late + (set h | h in hs), white, at, found)
  {}

  lemma SweepGray(start: seq<Word>, words: seq<Word>, late: set<int>, white: set<int>, at: int, found: set<int>)
    requires Sweeping(start, words, late, white, at, found)
    ensures Sweeping(start, words, late, white - {at}, at, found)
  {}

  lemma SweepClear(start: seq<Word>, words: seq<Word>, late: set<int>, white: set<int>, at: int, found: set<int>,
                   words': seq<Word>)
    requires Sweeping(start, words, late, white, at, found) && IsHeader(at, |words|) && at !in white
    requires |words'| == |words| && Marked(words, at)
    requires forall g :: Marked(words', g) <==> g != at && Marked(words, g)
    ensures at !in found && Sweeping(start, words', late, white, at + MIN_GROUP_SIZE, found + {at})
  {
    forall h | Marked(start, h) ensures h < at + MIN_GROUP_SIZE <==> h <= at { NextHeader(start, at, h); }
    hide Marked, IsHeader;
  }

  /** Between two neighbouring headers there is none. */
  lemma NextHeader(words: seq<Word>, at: int, h: int)
    requires Marked(words, h) && at % MIN_GROUP_SIZE == 0
    ensures h < at + MIN_GROUP_SIZE <==> h <= at
  {}

  lemma SweepSkip(start: seq<Word>, words: seq<Word>, late: set<int>, white: set<int>, at: int, found: set<int>,
                  to: int)
    requires Sweeping(start, words, late, white, at, found) && at <= to && forall h | at <= h < to :: !Marked(words, h)
    ensures Sweeping(start, words, late, white, to, found)
  {}

  lemma ZeroWordIsUnmarked(words: seq<Word>, i: nat)
    requires i < |words| && words[i] == ZERO
    ensures forall h | HeaderOf(i, 0) <= h < HeaderOf(i + 1, 0) :: !Marked(words, h)
  {}

  lemma ClearBitIsUnmarked(words: seq<Word>, i: nat, b: nat)
    requires i < |words| && b < BITS_PER_LONG && !words[i][b]
    ensures forall h | HeaderOf(i, b) <= h < HeaderOf(i, b + 1) :: !Marked(words, h)
  {
    forall h | HeaderOf(i, b) <= h < HeaderOf(i, b + 1) && IsHeader(h, |words|) ensures h == HeaderOf(i, b) {}
    BitRoundTrip(i, b, |words|);
  }

  class WriteVector {
    const words: array<Word>

    constructor (bytes: nat)
      ensures fresh(words) && words.Length == bytes / (MIN_GROUP_SIZE * BITS_PER_LONG)
      ensures forall h :: !Marked(words[..], h)
    {
      words := new Word[bytes / (MIN_GROUP_SIZE * BITS_PER_LONG)](_ => ZERO);
    }

    /** mark_write_vector */
    method MarkWriteVector(header: int)
      requires IsHeader(header, words.Length)
      modifies words
      ensures forall h :: Marked(words[..], h) <==> h == header || Marked(old(words[..]), h)
    {
      hide Marked;
      MarkOne(words[..], header);
      var longIndex := header / (MIN_GROUP_SIZE * BITS_PER_LONG);
      var bit := (header % (MIN_GROUP_SIZE * BITS_PER_LONG)) / MIN_GROUP_SIZE;
      ghost var was := words[..];
      words[longIndex] := words[longIndex][bit := true];
      assert words[..] == was[WordOf(header) := was[WordOf(header)][BitOf(header) := true]];
    }

    /** Other threads mark the headers of hs. */
    method Interfere(hs: seq<int>, ghost start: seq<Word>, ghost late: set<int>, ghost white: set<int>, ghost at: int,
                     ghost found: set<int>)
      requires forall h | h in hs :: IsHeader(h, words.Length)
      requires Sweeping(start, words[..], late, white, at, found)
      modifies words
      ensures Sweeping(start, words[..], late + (set h | h in hs), white, at, found)
      ensures forall h :: Marked(words[..], h) <==> h in hs || Marked(old(words[..]), h)
    {
      hide Marked, Sweeping;
      var i := 0;
      while i < |hs|
        invariant 0 <= i <= |hs|
        invariant forall h :: Marked(words[..], h) <==> h in hs[..i] || Marked(old(words[..]), h)
      {
        MarkWriteVector(hs[i]);
        i := i + 1;
        assert hs[..i] == hs[..i - 1] + [hs[i - 1]];
      }
      assert hs[..i] == hs;
      SweepMark(start, old(words[..]), late, white, at, found, words[..], hs);
    }

    /**
     scan_write_vector.  white0 is what is white when it starts and white what is white
     when it ends; meanwhile(t) is what other threads mark before the collector's t-th access;
     found are the headers whose bits are cleared, each once.
     */
    method ScanWriteVector(white0: set<int>, meanwhile: nat -> seq<int>)
      returns (markCount: nat, white: set<int>, ghost late: set<int>, ghost found: set<int>)
      requires forall t: nat, h | h in meanwhile(t) :: IsHeader(h, words.Length)
      modifies words
      ensures Sweeping(old(words[..]), words[..], late, white, words.Length * WORD_SPAN, found)
      ensures markCount == |found|
      ensures MarkedHeaders(old(words[..])) <= found <= MarkedHeaders(old(words[..])) + late
      ensures white <= white0 && forall h | h in white0 && h !in white :: Marked(old(words[..]), h) || h in late
      ensures forall h | h in late :: exists t :: h in meanwhile(t)
    {
      hide Marked, Sweeping;
      ghost var start := words[..];
      markCount, white, late, found := 0, white0, {}, {};
      SweepStarts(start, white0);
      var index, t: nat := 0, 0;
      while index < words.Length
        invariant 0 <= index <= words.Length
        invariant Sweeping(start, words[..], late, white, HeaderOf(index, 0), found) && markCount == |found|
        invariant Grayed(start, white0, white, late)
        invariant forall h | h in late :: exists t :: h in meanwhile(t)
      {
        Interfere(meanwhile(t), start, late, white, HeaderOf(index, 0), found);
        late := late + (set h | h in meanwhile(t));
        t := t + 1;
        if words[index] != ZERO {
          markCount, white, t, late, found :=
            ScanWord(index, start, white0, white, late, markCount, found, t, meanwhile);
        } else {
          ZeroWordIsUnmarked(words[..], index);
          SweepSkip(start, words[..], late, white, HeaderOf(index, 0), found, HeaderOf(index + 1, 0));
        }
        index := index + 1;
      }
      SweepMeaning(start, words[..], late, white, found);
    }

    /** The inner loop: the 64 bits of one word. */
    method ScanWord(index: nat, ghost start: seq<Word>, ghost white0: set<int>, white1: set<int>, ghost late1: set<int>,
                    count1: nat, ghost found1: set<int>, t1: nat, meanwhile: nat -> seq<int>)
      returns (markCount: nat, white: set<int>, t: nat, ghost late: set<int>, ghost found: set<int>)
      requires index < words.Length && forall t: nat, h | h in meanwhile(t) :: IsHeader(h, words.Length)
      requires Sweeping(start, words[..], late1, white1, HeaderOf(index, 0), found1) && count1 == |found1|
      requires Grayed(start, white0, white1, late1)
      requires forall h | h in late1 :: exists t :: h in meanwhile(t)
      modifies words
      ensures Sweeping(start, words[..], late, white, HeaderOf(index + 1, 0), found) && markCount == |found|
      ensures Grayed(start, white0, white, late)
      ensures forall h | h in late :: exists t :: h in meanwhile(t)
    {
      hide Marked, Sweeping, Grayed;
      markCount, white, t, late, found := count1, white1, t1, late1, found1;
      var bit := 0;
      while bit < BITS_PER_LONG
        invariant 0 <= bit <= BITS_PER_LONG
        invariant Sweeping(start, words[..], late, white, HeaderOf(index, bit), found) && markCount == |found|
        invariant Grayed(start, white0, white, late)
        invariant forall h | h in late :: exists t :: h in meanwhile(t)
      {
        BitRoundTrip(index, bit, words.Length);
        var header := HeaderOf(index, bit);
        Interfere(meanwhile(t), start, late, white, header, found);
        GrayedLater(start, white0, white, late, late + (set h | h in meanwhile(t)));
        late := late + (set h | h in meanwhile(t));
        t := t + 1;
        MarkedBit(words[..], index, bit);
        if words[index][bit] {
          GrayedHere(start, words[..], white0, white, late, header, found);
          SweepGray(start, words[..], late, white, header, found);
          ghost var whiter := white;
          if header in white { white := white - {header}; }
          assert white == whiter - {header};
          Interfere(meanwhile(t), start, late, white, header, found);
          GrayedLater(start, white0, white, late, late + (set h | h in meanwhile(t)));
          late := late + (set h | h in meanwhile(t));
          t := t + 1;
          ghost var was := words[..];
          ClearOne(was, index, bit);
          words[index] := words[index][bit := false];
          assert words[..] == was[index := was[index][bit := false]];
          SweepClear(start, was, late, white, header, found, words[..]);
          markCount, found := markCount + 1, found + {header};
        } else {
          ClearBitIsUnmarked(words[..], index, bit);
          SweepSkip(start, words[..], late, white, header, found, HeaderOf(index, bit + 1));
        }
        bit := bit + 1;
      }
    }
  }
}
