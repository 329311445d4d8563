/**
 Header colours and the three colour changes the collector makes.  White and
 black are not colours of their own: they are whichever of the two generation
 codes `unmarked_color` and `marked_color` currently hold.
 */
module Colours {
  datatype Colour = Gen0 | Gen1 | Gray | Green

  predicate Generation(c: Colour) {
    c == Gen0 || c == Gen1
  }

  /** What RTmake_object_gray does to the colours when its caller has tested WHITEP. */
  function Shade<H>(colour: map<H, Colour>, unmarked: Colour, o: H): (r: map<H, Colour>)
    ensures r.Keys == colour.Keys
  {
    if o in colour && colour[o] == unmarked then colour[o := Gray] else colour
  }

  /** The header leaves the gray set. */
  function Blacken<H>(colour: map<H, Colour>, marked: Colour, o: H): map<H, Colour> {
    colour[o := marked]
  }

  /** Every header still white is garbage and becomes free. */
  function Recycled<H>(colour: map<H, Colour>, unmarked: Colour): (r: map<H, Colour>)
    ensures r.Keys == colour.Keys
  {
    map o | o in colour :: if colour[o] == unmarked then Green else colour[o]
  }
}
