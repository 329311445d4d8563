/**
 A link word holds a header address and, in its low four bits, the colour (prev) or the
 storage class (next).
 */
module InfoBits {
  const LINK_INFO_MASK: bv64 := 0xF
  const LINK_POINTER_MASK: bv64 := !0xF
  const INFO_MASK: bv64 := 0x3 // GC_STORAGE_INFO_MASK and GC_COLOR_INFO_MASK

  function GetPointer(l: bv64): bv64 { l & LINK_POINTER_MASK }

  function SetPointer(l: bv64, v: bv64): bv64 { (l & LINK_INFO_MASK) | v }

  function GetInfo(l: bv64): bv64 { l & INFO_MASK }

  function SetInfo(l: bv64, bits: bv64): bv64 { (l & !INFO_MASK) | bits }

  predicate Aligned(v: bv64) { v & LINK_INFO_MASK == 0 }

  /** A pointer can be stored and read back exactly when it is 16-byte aligned. */
  lemma PointerRoundTrip(l: bv64, v: bv64)
    ensures GetPointer(SetPointer(l, v)) == v <==> Aligned(v)
  {}

  /** Storing an aligned pointer leaves the info bits alone. */
  lemma PointerKeepsInfo(l: bv64, v: bv64)
    requires Aligned(v)
    ensures GetInfo(SetPointer(l, v)) == GetInfo(l)
  {}

  /** Info bits can be stored and read back exactly when they fit into the mask. */
  lemma InfoRoundTrip(l: bv64, bits: bv64)
    ensures GetInfo(SetInfo(l, bits)) == bits & INFO_MASK
    ensures GetInfo(SetInfo(l, bits)) == bits <==> bits <= 3
  {}

  /** Storing info bits leaves the pointer alone, if they stay inside the low four bits. */
  lemma InfoKeepsPointer(l: bv64, bits: bv64)
    requires bits & LINK_POINTER_MASK == 0
    ensures GetPointer(SetInfo(l, bits)) == GetPointer(l)
  {
    Distribute(l & !INFO_MASK, bits, LINK_POINTER_MASK);
    assert (l & !INFO_MASK) & LINK_POINTER_MASK == l & LINK_POINTER_MASK;
  }

  lemma Distribute(a: bv64, b: bv64, m: bv64)
    ensures (a | b) & m == (a & m) | (b & m)
  {}

  /** So a link word is a record of a pointer and info bits: each half is read as last written, whatever the other. */
  lemma LinkWordIsARecord(l: bv64, v: bv64, bits: bv64)
    requires Aligned(v) && bits <= 3
    ensures GetPointer(SetPointer(l, v)) == v && GetInfo(SetPointer(l, v)) == GetInfo(l)
    ensures GetInfo(SetInfo(l, bits)) == bits && GetPointer(SetInfo(l, bits)) == GetPointer(l)
    ensures SetInfo(SetPointer(l, v), bits) == SetPointer(SetInfo(l, bits), v)
  {
    PointerRoundTrip(l, v);
    PointerKeepsInfo(l, v);
    InfoRoundTrip(l, bits);
    InfoKeepsPointer(l, bits);
  }
}
