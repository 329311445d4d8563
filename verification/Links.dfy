/**
 Doubly linked chains of headers.  A header is the pair of link words that precedes an
 object; its `prev` word also holds the colour and its `next` word the storage class.
 */
module Links {
  import opened Colours

  const NULL: int := -1

  datatype Header = Header(prev: int, next: int, colour: Colour, class_: int)

  type Memory = map<int, Header>

  function At(s: seq<int>, i: int): int { if 0 <= i < |s| then s[i] else NULL }

  /** The header at position i of s points to its two neighbours. */
  ghost predicate LinkAt(h: Memory, s: seq<int>, i: nat)
    requires i < |s|
  {
    s[i] in h && s[i] != NULL && h[s[i]].prev == At(s, i - 1) && h[s[i]].next == At(s, i + 1)
  }

  ghost predicate Chain(h: Memory, s: seq<int>) {
    && (forall i: nat | i < |s| :: LinkAt(h, s, i))
    && (forall i, j | 0 <= i < j < |s| :: s[i] != s[j])
  }

  function SetPrev(h: Memory, p: int, v: int): Memory
    requires p in h
  {
    h[p := h[p].(prev := v)]
  }

  function SetNext(h: Memory, p: int, v: int): Memory
    requires p in h
  {
    h[p := h[p].(next := v)]
  }

  function SetColour(h: Memory, p: int, c: Colour): Memory
    requires p in h
  {
    h[p := h[p].(colour := c)]
  }

  /** Same headers, same colours, same classes: only links differ. */
  ghost predicate SameInfo(h: Memory, k: Memory) {
    h.Keys == k.Keys && forall p | p in h :: k[p].colour == h[p].colour && k[p].class_ == h[p].class_
  }

  ghost predicate SameLinksOn(h: Memory, k: Memory, s: seq<int>) {
    forall p | p in s :: p in h && p in k && k[p].prev == h[p].prev && k[p].next == h[p].next
  }

  lemma ChainFrame(h: Memory, k: Memory, s: seq<int>)
    requires Chain(h, s) && SameLinksOn(h, k, s)
    ensures Chain(k, s)
  {
    forall i: nat | i < |s| ensures LinkAt(k, s, i) { assert LinkAt(h, s, i); }
  }

  lemma ChainMembers(h: Memory, s: seq<int>)
    requires Chain(h, s)
    ensures forall p | p in s :: p in h && p != NULL
  {
    forall p | p in s ensures p in h && p != NULL { InChain(h, s, p); }
  }

  lemma InChain(h: Memory, s: seq<int>, p: int)
    requires Chain(h, s) && p in s
    ensures p in h && p != NULL
    ensures h[p].prev == NULL || h[p].prev in s
    ensures h[p].next == NULL || h[p].next in s
  {
    var i :| 0 <= i < |s| && s[i] == p;
    assert LinkAt(h, s, i);
  }

  // ---------------------------------------------------------------- unlinking one header

  function Unlink(h: Memory, p: int): Memory
    requires p in h && (h[p].prev != NULL ==> h[p].prev in h) && (h[p].next != NULL ==> h[p].next in h)
  {
    var prev, next := h[p].prev, h[p].next;
    var h1 := if prev != NULL then SetNext(h, prev, next) else h;
    if next != NULL then SetPrev(h1, next, prev) else h1
  }

  lemma ChainUnlink(h: Memory, s: seq<int>, k: nat)
    requires Chain(h, s) && k < |s|
    ensures s[k] in h && (h[s[k]].prev != NULL ==> h[s[k]].prev in h) && (h[s[k]].next != NULL ==> h[s[k]].next in h)
    ensures Chain(Unlink(h, s[k]), s[..k] + s[k + 1..])
    ensures SameInfo(h, Unlink(h, s[k]))
    ensures forall p | p in h && p !in s :: Unlink(h, s[k])[p] == h[p]
  {
    assert LinkAt(h, s, k);
    if k > 0 { assert LinkAt(h, s, k - 1); }
    if k + 1 < |s| { assert LinkAt(h, s, k + 1); }
    var t := s[..k] + s[k + 1..];
    var h' := Unlink(h, s[k]);
    forall i: nat | i < |t| ensures LinkAt(h', t, i) {
      var j := if i < k then i else i + 1;
      assert t[i] == s[j] && LinkAt(h, s, j);
    }
  }

  // ---------------------------------------------------------------- joining and cutting

  lemma ChainPush(h: Memory, k: Memory, s: seq<int>, c: int)
    requires Chain(h, s) && c !in s && c != NULL && c in k && k[c].prev == NULL && k[c].next == At(s, 0)
    requires forall i | 0 <= i < |s| ::
               s[i] in k && s[i] in h && k[s[i]].next == h[s[i]].next &&
               k[s[i]].prev == (if i == 0 then c else h[s[i]].prev)
    ensures Chain(k, [c] + s)
  {
    var t := [c] + s;
    forall i: nat | i < |t| ensures LinkAt(k, t, i) {
      if i > 0 { assert LinkAt(h, s, i - 1); }
    }
  }

  lemma ChainJoin(h: Memory, k: Memory, s: seq<int>, t: seq<int>)
    requires Chain(h, s) && Chain(h, t) && forall p | p in s :: p !in t
    requires forall i | 0 <= i < |s| :: s[i] in k && s[i] in h && k[s[i]].prev == h[s[i]].prev &&
               k[s[i]].next == (if i == |s| - 1 then At(t, 0) else h[s[i]].next)
    requires forall i | 0 <= i < |t| :: t[i] in k && t[i] in h && k[t[i]].next == h[t[i]].next &&
               k[t[i]].prev == (if i == 0 then At(s, |s| - 1) else h[t[i]].prev)
    ensures Chain(k, s + t)
  {
    var u := s + t;
    forall i: nat | i < |u| ensures LinkAt(k, u, i) {
      if i < |s| { assert LinkAt(h, s, i); } else { assert LinkAt(h, t, i - |s|); }
    }
    forall i, j | 0 <= i < j < |u| ensures u[i] != u[j] {
      if i < |s| <= j { assert u[i] in s && u[j] in t; }
    }
  }

  lemma ChainCut(h: Memory, k: Memory, s: seq<int>, n: nat)
    requires Chain(h, s) && n <= |s|
    requires forall i | 0 <= i < |s| :: s[i] in k && s[i] in h &&
               k[s[i]].prev == (if i == n then NULL else h[s[i]].prev) &&
               k[s[i]].next == (if i == n - 1 then NULL else h[s[i]].next)
    ensures Chain(k, s[..n]) && Chain(k, s[n..])
  {
    forall i: nat | i < n ensures LinkAt(k, s[..n], i) { assert LinkAt(h, s, i); }
    forall i: nat | i < |s| - n ensures LinkAt(k, s[n..], i) { assert LinkAt(h, s, n + i); }
  }
}
