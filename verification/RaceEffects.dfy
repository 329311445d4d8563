/**
 What each operation on a group has done when it is over, in every interleaving: graying
 makes its object gray, a scan makes its object black, an allocation takes a free object
 and leaves it black and with its storage class; and nothing else changes any header's
 colour or class.
 */
module RaceEffects {
  import opened Colours
  import opened Links
  import opened GroupList
  import opened GroupRaces

  // ---------------------------------------------------------------- one step

  /** The header whose colour or class a step may change. */
  predicate Touches(r: Race, st: Step, x: int) {
    match st
    case WriteColour => r.gc.ColourRead? && r.gc.u == x
    case WriteScan => r.gc.ScanRead? && r.gc.p == x
    case WritePrev => r.free.By? && r.free.pc.PrevRead? && r.free.pc.p == x
    case WriteNext(_) => r.free.By? && r.free.pc.NextRead? && r.free.pc.p == x
    case _ => false
  }

  lemma UnlinkKeepsInfo(h: Memory, u: int)
    requires Linked(h, u)
    ensures SameInfo(h, SetPrev(Unlink(h, u), u, NULL))
  {}

  /** Every other header keeps its colour and its class, whatever word the step writes. */
  lemma OthersKeepInfo(r: Race, st: Step, x: int)
    requires RInv(r) && Enabled(r, st) && x in r.h && !Touches(r, st, x)
    ensures var t := After(r, st);
            x in t.h && t.h[x].colour == r.h[x].colour && t.h[x].class_ == r.h[x].class_
  {
    if st.Begin? { UnlinkKeepsInfo(r.h, r.s.whites[st.k]); }
  }

  /** What the step does to the header it touches. */
  lemma TouchedInfo(r: Race, st: Step, x: int)
    requires RInv(r) && Enabled(r, st) && Touches(r, st, x)
    ensures x in r.h && x in After(r, st).h
    ensures var a, b := r.h[x], After(r, st).h[x];
            match st
            case WriteColour => a.colour == r.unmarked && b.colour == Gray && b.class_ == a.class_
            case WriteScan => a.colour == Gray && b.colour == r.marked && b.class_ == a.class_
            case WritePrev => a.colour == Green && b.colour == r.marked && b.class_ == a.class_
            case WriteNext(class_) => b.colour == a.colour && b.class_ == class_
            case _ => false
  {
    if st.WriteScan? { ScannedIsGray(r); }
  }

  /** The object whose scan is ending is gray: no mutator can have touched it. */
  lemma ScannedIsGray(r: Race)
    requires RInv(r) && r.gc.ScanRead?
    ensures r.gc.p in r.h && r.h[r.gc.p].colour == Gray
  {
    var i: nat := r.s.grays - 1;
    assert ColourOk(r, i);
    assert InFlight(r.free) ==> r.s.main[r.s.retained - 1] != r.s.main[i];
  }

  // ---------------------------------------------------------------- runs

  /** The step from state i to i + 1 is st. */
  ghost predicate Takes(run: seq<Race>, i: nat, st: Step) {
    i + 1 < |run| && Enabled(run[i], st) && run[i + 1] == After(run[i], st)
  }

  lemma StepOf(run: seq<Race>, k: nat) returns (st: Step)
    requires Run(run) && k + 1 < |run|
    ensures RInv(run[k]) && RInv(run[k + 1]) && Enabled(run[k], st) && run[k + 1] == After(run[k], st)
  {
    RaceInvariant(run, k);
    RaceInvariant(run, k + 1);
    assert StepAt(run, k);
    hide RInv, Enabled, After;
    st :| Enabled(run[k], st) && run[k + 1] == After(run[k], st);
  }

  /** Between states i and k some step touches x. */
  ghost predicate TouchedBetween(run: seq<Race>, i: nat, k: nat, x: int) {
    exists j: nat, st :: i <= j < k && Takes(run, j, st) && Touches(run[j], st, x)
  }

  /**
   Only the step that ends the graying of an object, its scan or its allocation changes its
   colour, and only the one that ends its allocation changes its class: whatever else
   happens between two states, the header has the colour and the class it had.
   */
  lemma {:induction false} NothingElseChanges(run: seq<Race>, i: nat, k: nat, x: int)
    requires Run(run) && i <= k < |run| && x in run[i].h && !TouchedBetween(run, i, k, x)
    ensures x in run[k].h && run[k].h[x].colour == run[i].h[x].colour && run[k].h[x].class_ == run[i].h[x].class_
    decreases k
  {
    hide RInv, Enabled, After, Touches, Run;
    if k > i {
      var st := StepOf(run, k - 1);
      assert Takes(run, k - 1, st);
      assert !Touches(run[k - 1], st, x);
      NothingElseChanges(run, i, k - 1, x);
      OthersKeepInfo(run[k - 1], st, x);
    }
  }

  // ---------------------------------------------------------------- graying

  /** The collector is somewhere between the unlinking of u and the end of its graying. */
  predicate Graying(gc: Gc, u: int) {
    match gc
    case Unlinked(v) => v == u
    case InBl(v) => v == u
    case NeedFree(v) => v == u
    case InFree(v) => v == u
    case BlackRead(v, _) => v == u
    case Linked_(v) => v == u
    case ColourRead(v, _) => v == u
    case Grayed_(v) => v == u
    case _ => false
  }

  lemma GrayingGoesOn(r: Race, st: Step, u: int)
    requires RInv(r) && Enabled(r, st) && Graying(r.gc, u)
    ensures var t := After(r, st);
            Graying(t.gc, u) || (t.gc.Rest? && u in t.h && t.h[u].colour == Gray && t.c.gray == u)
  {
    if st.SetGray? { assert ColourOk(r, 0); }
  }

  /** k is the first state after i in which the collector is at rest. */
  predicate NextRest(run: seq<Race>, i: nat, k: nat) {
    i < k < |run| && run[k].gc.Rest? && forall j | i < j < k :: !run[j].gc.Rest?
  }

  lemma {:induction false} GrayingUntil(run: seq<Race>, i: nat, k: nat, j: nat, u: int)
    requires Run(run) && NextRest(run, i, k) && i < j < k && Graying(run[i + 1].gc, u)
    ensures Graying(run[j].gc, u)
    decreases j
  {
    hide RInv, Enabled, After, Run, Graying;
    if j > i + 1 {
      var st := StepOf(run, j - 1);
      GrayingUntil(run, i, k, j - 1, u);
      GrayingGoesOn(run[j - 1], st, u);
    }
  }

  /** Graying: once it is over the object is gray and at the head of the gray set. */
  lemma GrayingArrives(run: seq<Race>, i: nat, k: nat, w: nat)
    requires Run(run) && Takes(run, i, Begin(w)) && NextRest(run, i, k)
    ensures w < |run[i].s.whites|
    ensures var u := run[i].s.whites[w]; u in run[k].h && run[k].h[u].colour == Gray && run[k].c.gray == u
  {
    var u := run[i].s.whites[w];
    BeginStarts(run[i], w);
    hide Enabled, After, Run, RInv;
    GrayingUntil(run, i, k, k - 1, u);
    var st := StepOf(run, k - 1);
    GrayingGoesOn(run[k - 1], st, u);
  }

  lemma BeginStarts(r: Race, w: nat)
    requires Enabled(r, Begin(w))
    ensures w < |r.s.whites| && Graying(After(r, Begin(w)).gc, r.s.whites[w]) && !After(r, Begin(w)).gc.Rest?
  {}

  // ---------------------------------------------------------------- scanning

  predicate Scanning(r: Race, p: int) {
    (r.gc.ScanRead? && r.gc.p == p) || (r.gc.ScanWritten? && r.gc.p == p)
  }

  lemma ScanGoesOn(r: Race, st: Step, p: int)
    requires RInv(r) && Enabled(r, st) && Scanning(r, p)
    ensures var t := After(r, st);
            Scanning(t, p) || (t.gc.Rest? && p in t.h && t.h[p].colour == r.marked && t.c.black == p)
  {}

  lemma {:induction false} ScanningUntil(run: seq<Race>, i: nat, k: nat, j: nat, p: int)
    requires Run(run) && NextRest(run, i, k) && i < j < k && Scanning(run[i + 1], p)
    ensures Scanning(run[j], p)
    decreases j
  {
    hide RInv, Enabled, After, Run, Scanning;
    if j > i + 1 {
      var st := StepOf(run, j - 1);
      ScanningUntil(run, i, k, j - 1, p);
      ScanGoesOn(run[j - 1], st, p);
    }
  }

  /** Scanning: the object at the cursor was gray, and once its scan is over it is black. */
  lemma ScanArrives(run: seq<Race>, i: nat, k: nat)
    requires Run(run) && Takes(run, i, ReadScan) && NextRest(run, i, k)
    ensures var p := Cursor(run[i]);
            && p in run[i].h && run[i].h[p].colour == Gray
            && p in run[k].h && run[k].h[p].colour == run[k - 1].marked && run[k].c.black == p
  {
    hide RInv, Run, Enabled, After, Cursor;
    ReadStarts(run[i]);
    RaceInvariant(run, i + 1);
    ScannedIsGray(run[i + 1]);
    ScanLands(run, i, k, Cursor(run[i]));
  }

  lemma ScanLands(run: seq<Race>, i: nat, k: nat, p: int)
    requires Run(run) && NextRest(run, i, k) && Scanning(run[i + 1], p)
    ensures p in run[k].h && run[k].h[p].colour == run[k - 1].marked && run[k].c.black == p
  {
    hide Enabled, After, Run, RInv, Scanning;
    ScanningIsBusy(run[i + 1], p);
    ScanningUntil(run, i, k, k - 1, p);
    var st := StepOf(run, k - 1);
    ScanGoesOn(run[k - 1], st, p);
    ScanningIsBusy(run[k], p);
  }

  lemma ReadStarts(r: Race)
    requires Enabled(r, ReadScan)
    ensures var t := After(r, ReadScan); t.h == r.h && t.gc.ScanRead? && t.gc.p == Cursor(r) && Scanning(t, Cursor(r))
  {}

  lemma ScanningIsBusy(r: Race, p: int)
    ensures Scanning(r, p) ==> !r.gc.Rest?
  {}

  // ---------------------------------------------------------------- allocating

  /** A mutator is between taking p off the free list and giving free_lock back. */
  predicate Taking(f: FreeLock, m: nat, p: int) { f.By? && f.m == m && InFlight(f) && f.pc.p == p }

  lemma TakingGoesOn(r: Race, st: Step, m: nat, p: int)
    requires RInv(r) && Enabled(r, st) && Taking(r.free, m, p)
    ensures var t := After(r, st);
            Taking(t.free, m, p) ||
            (t.free.Open? && st.WriteNext? && p in t.h && t.h[p].colour == r.marked && t.h[p].class_ == st.class_)
  {
    if st.WriteNext? { assert ColourOk(r, r.s.retained - 1); }
  }

  /** k is the first state after i in which free_lock is open. */
  predicate NextOpen(run: seq<Race>, i: nat, k: nat) {
    i < k < |run| && run[k].free.Open? && forall j | i < j < k :: !run[j].free.Open?
  }

  lemma {:induction false} TakingUntil(run: seq<Race>, i: nat, k: nat, j: nat, m: nat, p: int)
    requires Run(run) && NextOpen(run, i, k) && i < j < k && Taking(run[i + 1].free, m, p)
    ensures Taking(run[j].free, m, p)
    decreases j
  {
    hide RInv, Enabled, After, Run, Taking;
    if j > i + 1 {
      var st := StepOf(run, j - 1);
      TakingUntil(run, i, k, j - 1, m, p);
      TakingGoesOn(run[j - 1], st, m, p);
    }
  }

  lemma PoppedIsGreen(r: Race)
    requires RInv(r) && Enabled(r, Pop)
    ensures r.c.free in r.h && r.h[r.c.free].colour == Green
  {
    Places(r);
    assert ColourOk(r, r.s.retained);
  }

  /**
   Allocating: what is taken off the free list was free, and when free_lock is given back it
   is black and has the class the allocation gave it.
   */
  lemma AllocationArrives(run: seq<Race>, i: nat, k: nat) returns (class_: int)
    requires Run(run) && Takes(run, i, Pop) && NextOpen(run, i, k)
    ensures var p := run[i].c.free;
            && p in run[i].h && run[i].h[p].colour == Green && Takes(run, k - 1, WriteNext(class_))
            && p in run[k].h && run[k].h[p].colour == run[k - 1].marked && run[k].h[p].class_ == class_
  {
    var p, m := run[i].c.free, run[i].free.m;
    RaceInvariant(run, i);
    PoppedIsGreen(run[i]);
    PopStarts(run[i]);
    hide Enabled, After, Run, RInv, Taking;
    TakingUntil(run, i, k, k - 1, m, p);
    var st := StepOf(run, k - 1);
    TakingGoesOn(run[k - 1], st, m, p);
    TakingIsBusy(run[k], m, p);
    class_ := st.class_;
  }

  lemma PopStarts(r: Race)
    requires Enabled(r, Pop)
    ensures r.free.By? && Taking(After(r, Pop).free, r.free.m, r.c.free) && !After(r, Pop).free.Open?
  {}

  lemma TakingIsBusy(r: Race, m: nat, p: int)
    ensures Taking(r.free, m, p) ==> !r.free.Open?
  {}

  // ---------------------------------------------------------------- fresh blocks

  /** A mutator has laid blocks out and is linking them in. */
  predicate Laying(f: FreeLock, m: nat, blocks: seq<int>) {
    f.By? && f.m == m && (f.pc.Fresh? || f.pc.FreshInBl? || f.pc.LastRead?) && f.pc.blocks == blocks
  }

  /** The blocks are green, the free list starts with them and the main chain ends with them. */
  ghost predicate LinkedIn(r: Race, blocks: seq<int>) {
    && blocks != [] && (forall b | b in blocks :: b in r.h && r.h[b].colour == Green)
    && r.c.free == blocks[0] && r.c.last == blocks[|blocks| - 1]
  }

  lemma LayingGoesOn(r: Race, st: Step, m: nat, blocks: seq<int>)
    requires RInv(r) && Enabled(r, st) && Laying(r.free, m, blocks)
    ensures var t := After(r, st);
            Laying(t.free, m, blocks) || (t.free.By? && t.free.m == m && t.free.pc.Holding? && LinkedIn(t, blocks))
  {
    if st.LinkFresh? || st.LinkLast? {
      assert forall b | b in blocks :: b in r.h && r.h[b].colour == Green;
      FreshMembers(r);
    }
  }

  /** k is the first state after i in which free_lock's mutator has nothing in hand. */
  predicate NextHolding(run: seq<Race>, i: nat, k: nat) {
    i < k < |run| && run[k].free.By? && run[k].free.pc.Holding?
    && forall j | i < j < k :: !(run[j].free.By? && run[j].free.pc.Holding?)
  }

  lemma {:induction false} LayingUntil(run: seq<Race>, i: nat, k: nat, j: nat, m: nat, blocks: seq<int>)
    requires Run(run) && NextHolding(run, i, k) && i < j < k && Laying(run[i + 1].free, m, blocks)
    ensures Laying(run[j].free, m, blocks)
    decreases j
  {
    hide RInv, Enabled, After, Run, Laying, LinkedIn;
    if j > i + 1 {
      var st := StepOf(run, j - 1);
      LayingUntil(run, i, k, j - 1, m, blocks);
      LayingGoesOn(run[j - 1], st, m, blocks);
    }
  }

  lemma LayOutStarts(r: Race, g: Memory, blocks: seq<int>)
    requires Enabled(r, LayOut(g, blocks))
    ensures r.free.By? && Laying(After(r, LayOut(g, blocks)).free, r.free.m, blocks) && r.c.free == NULL
  {}

  lemma LayingIsBusy(r: Race, m: nat, blocks: seq<int>)
    ensures Laying(r.free, m, blocks) ==> !(r.free.By? && r.free.pc.Holding?)
  {}

  /** Committing a block: in the end its objects are free, at the head of the free list and the end of the chain. */
  lemma FreshBlocksArrive(run: seq<Race>, i: nat, k: nat, g: Memory, blocks: seq<int>)
    requires Run(run) && Takes(run, i, LayOut(g, blocks)) && NextHolding(run, i, k)
    ensures run[i].c.free == NULL && LinkedIn(run[k], blocks)
  {
    hide Enabled, After, Run, RInv, Laying, LinkedIn;
    LayOutStarts(run[i], g, blocks);
    var m := run[i].free.m;
    LayingIsBusy(run[i + 1], m, blocks);
    assert k > i + 1;
    LayingUntil(run, i, k, k - 1, m, blocks);
    var st := StepOf(run, k - 1);
    LayingGoesOn(run[k - 1], st, m, blocks);
    LayingIsBusy(run[k], m, blocks);
  }
}
