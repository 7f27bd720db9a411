// sbrk, and the profiler's allocator that carves small objects out of slabs it
// takes from sbrk and never gives back.

module Heap {
  import opened Words

  const LIMIT: U32 := 0x1800_0000   // __alt_heap_limit
  const FAILED: U32 := WRAP - 1
  const SLAB := 1020

  datatype State = State(end: U32, slab: U32, left: S32)

  /** (x + 3) & ~3 in 32 bits. */
  function Aligned(x: U32): U32
  {
    var up := (x + 3) % WRAP;
    up - up % 4
  }

  /** sbrk: the new end of the heap and the block's address. The end is aligned
      even when the request is refused. */
  function Extend(end: U32, incr: S32): (U32, U32)
  {
    var from := Aligned(end);
    var to := (from + incr) % WRAP;
    if to > LIMIT then (from, FAILED) else (to, from)
  }

  /** mcount_allocate: take a new slab, unchecked, if the unsigned comparison says
      the current one is too small; then cut the object off its front. */
  function WithSlab(s: State, size: U32): State
  {
    if size > s.left % WRAP then State(Extend(s.end, SLAB).0, Extend(s.end, SLAB).1, SLAB) else s
  }

  function Cut(s: State, size: U32): (State, U32)
  {
    var t := WithSlab(s, size);
    (State(t.end, (t.slab + size) % WRAP, Signed(t.left - size)), t.slab)
  }

  class Allocator {
    var heapEnd: U32
    var slabPtr: U32
    var slabSize: S32

    ghost function S(): State
      reads this
    {
      State(heapEnd, slabPtr, slabSize)
    }

    constructor (heapStart: U32)
      ensures S() == State(heapStart, 0, 0)
    {
      heapEnd, slabPtr, slabSize := heapStart, 0, 0;
    }

    method Sbrk(incr: S32) returns (block: U32)
      modifies this`heapEnd
      ensures (heapEnd, block) == Extend(old(heapEnd), incr)
    {
      heapEnd := (heapEnd + 3) % WRAP;
      heapEnd := heapEnd - heapEnd % 4;
      if (heapEnd + incr) % WRAP > LIMIT {
        return FAILED;
      }
      block := heapEnd;
      heapEnd := (heapEnd + incr) % WRAP;
    }

    method Allocate(size: U32) returns (data: U32)
      modifies this
      ensures (S(), data) == Cut(old(S()), size)
    {
      if size > slabSize % WRAP {
        slabPtr := Sbrk(SLAB);
        slabSize := SLAB;
      }
      data := slabPtr;
      slabPtr := (slabPtr + size) % WRAP;
      slabSize := Signed(slabSize - size);
    }
  }

  // ---- What has been handed out ----

  datatype Block = Block(addr: U32, size: nat, slab: bool)

  predicate Within(inner: Block, outer: Block)
  {
    outer.addr <= inner.addr && inner.addr + inner.size <= outer.addr + outer.size
  }

  predicate Disjoint(a: Block, b: Block)
  {
    a.addr + a.size <= b.addr || b.addr + b.size <= a.addr
  }

  /** The state, every block that sbrk granted, and every object cut from a slab. */
  datatype Log = Log(s: State, blocks: seq<Block>, objects: seq<Block>)

  datatype Request = Sbrk(incr: S32) | Allocate(size: U32)

  function Grant(blocks: seq<Block>, addr: U32, size: nat, slab: bool): seq<Block>
  {
    if addr == FAILED then blocks else blocks + [Block(addr, size, slab)]
  }

  function Step(g: Log, r: Request): Log
    requires r.Sbrk? ==> r.incr >= 0
  {
    match r
    case Sbrk(incr) =>
      var (end, block) := Extend(g.s.end, incr);
      g.(s := g.s.(end := end), blocks := Grant(g.blocks, block, incr, false))
    case Allocate(size) =>
      var (s, data) := Cut(g.s, size);
      var blocks := if size > g.s.left % WRAP
                    then Grant(g.blocks, Extend(g.s.end, SLAB).1, SLAB, true) else g.blocks;
      Log(s, blocks, g.objects + [Block(data, size, false)])
  }

  /** A request the allocator can serve: the object fits a slab, and a slab that is
      needed is granted. */
  predicate Served(g: Log, r: Request)
  {
    match r
    case Sbrk(incr) => incr >= 0
    case Allocate(size) =>
      size <= SLAB && (size > g.s.left % WRAP ==> Extend(g.s.end, SLAB).1 != FAILED)
  }

  /** Granted blocks are aligned, inside the heap, and in address order without
      overlap. */
  ghost predicate BlocksSound(start: U32, end: U32, blocks: seq<Block>)
  {
    && (forall i | 0 <= i < |blocks| :: blocks[i].addr % 4 == 0
          && start <= blocks[i].addr && blocks[i].addr + blocks[i].size <= end
          && blocks[i].addr + blocks[i].size <= LIMIT)
    && (forall i, j | 0 <= i < j < |blocks| :: blocks[i].addr + blocks[i].size <= blocks[j].addr)
  }

  /** Some granted slab holds the object; an empty object needs none. */
  ghost predicate InSlab(o: Block, blocks: seq<Block>)
  {
    o.size > 0 ==> exists i :: 0 <= i < |blocks| && blocks[i].slab && Within(o, blocks[i])
  }

  ghost predicate ObjectsSound(top: U32, blocks: seq<Block>, objects: seq<Block>)
  {
    && (forall k | 0 <= k < |objects| :: InSlab(objects[k], blocks) && objects[k].addr + objects[k].size <= top)
    && (forall k, m | 0 <= k < m < |objects| :: objects[k].addr + objects[k].size <= objects[m].addr)
  }

  /** What is left of the current slab is the tail of a granted slab. */
  ghost predicate TailSound(s: State, blocks: seq<Block>)
  {
    && 0 <= s.left <= SLAB
    && InSlab(Block(s.slab, s.left, false), blocks)
  }

  ghost predicate Sound(start: U32, g: Log)
  {
    && start <= g.s.end && g.s.end <= LIMIT && g.s.slab <= g.s.end
    && BlocksSound(start, g.s.end, g.blocks)
    && TailSound(g.s, g.blocks)
    && ObjectsSound(g.s.slab, g.blocks, g.objects)
  }

  lemma AlignedIs(x: U32)
    requires x <= LIMIT
    ensures x <= Aligned(x) < x + 4 && Aligned(x) % 4 == 0 && Aligned(x) <= LIMIT
  {
    assert (x + 3) % WRAP == x + 3;
  }

  /** A request that is not negative is granted exactly when it fits below the
      limit, and the block lies between the old end and the new one. */
  lemma ExtendIs(end: U32, incr: S32)
    requires end <= LIMIT && incr >= 0
    ensures var (to, block) := Extend(end, incr);
      && (block != FAILED <==> Aligned(end) + incr <= LIMIT)
      && (block != FAILED ==> block == Aligned(end) && to == block + incr)
      && (block == FAILED ==> to == Aligned(end))
      && end <= Aligned(end) < end + 4 && Aligned(end) % 4 == 0 && end <= to && to <= LIMIT
  {
    AlignedIs(end);
    assert (Aligned(end) + incr) % WRAP == Aligned(end) + incr;
  }

  /** A negative request gives memory back: the end moves down from the aligned end,
      which is the answer, and is refused exactly when it would pass below 0. */
  lemma GiveBack(end: U32, incr: S32)
    requires end <= LIMIT && incr < 0
    ensures var (to, block) := Extend(end, incr);
      var from := if end % 4 == 0 then end else end + 4 - end % 4;
      if from + incr >= 0 then block == from && to == from + incr
      else block == 0xFFFF_FFFF && to == from
  {
    AlignedIs(end);
    var from := Aligned(end);
    assert (from + incr) % WRAP == if from + incr >= 0 then from + incr else from + incr + WRAP;
  }

  lemma GrantIsSound(start: U32, g: Log, size: S32, slab: bool)
    requires Sound(start, g) && size >= 0
    ensures var (end, block) := Extend(g.s.end, size);
      && BlocksSound(start, end, Grant(g.blocks, block, size, slab))
      && g.s.end <= end <= LIMIT
  {
    ExtendIs(g.s.end, size);
  }

  lemma StillInSlab(o: Block, blocks: seq<Block>, more: seq<Block>)
    requires blocks <= more && InSlab(o, blocks)
    ensures InSlab(o, more)
  {
    if o.size > 0 {
      var i :| 0 <= i < |blocks| && blocks[i].slab && Within(o, blocks[i]);
      assert more[i] == blocks[i];
    }
  }

  lemma ObjectsStay(top: U32, top': U32, blocks: seq<Block>, more: seq<Block>, objects: seq<Block>)
    requires blocks <= more && ObjectsSound(top, blocks, objects) && top <= top'
    ensures ObjectsSound(top', more, objects)
  {
    forall k | 0 <= k < |objects|
      ensures InSlab(objects[k], more)
    {
      StillInSlab(objects[k], blocks, more);
    }
  }

  lemma SbrkIsSound(start: U32, g: Log, incr: S32)
    requires Sound(start, g) && incr >= 0
    ensures Sound(start, Step(g, Sbrk(incr)))
  {
    GrantIsSound(start, g, incr, false);
    var more := Step(g, Sbrk(incr)).blocks;
    ObjectsStay(g.s.slab, g.s.slab, g.blocks, more, g.objects);
    StillInSlab(Block(g.s.slab, g.s.left, false), g.blocks, more);
  }

  /** The part of a piece that is cut off, and the part that is left. */
  lemma PiecesInSlab(addr: U32, left: nat, size: nat, blocks: seq<Block>)
    requires InSlab(Block(addr, left, false), blocks) && size <= left && addr + size < WRAP
    ensures InSlab(Block(addr, size, false), blocks)
    ensures InSlab(Block(addr + size, left - size, false), blocks)
  {
    if left > 0 {
      var i :| 0 <= i < |blocks| && blocks[i].slab && Within(Block(addr, left, false), blocks[i]);
      assert Within(Block(addr, size, false), blocks[i]);
      assert Within(Block(addr + size, left - size, false), blocks[i]);
    }
  }

  lemma NewSlabIsSound(start: U32, g: Log, size: U32)
    requires Sound(start, g) && Served(g, Allocate(size)) && size > g.s.left
    ensures var h := Log(WithSlab(g.s, size), Step(g, Allocate(size)).blocks, g.objects);
      Sound(start, h) && size <= h.s.left && h.s.slab + h.s.left <= h.s.end
  {
    var h := Log(WithSlab(g.s, size), Step(g, Allocate(size)).blocks, g.objects);
    ExtendIs(g.s.end, SLAB);
    GrantIsSound(start, g, SLAB, true);
    ObjectsStay(g.s.slab, h.s.slab, g.blocks, h.blocks, g.objects);
    var last := h.blocks[|g.blocks|];
    assert last.slab && Within(Block(h.s.slab, h.s.left, false), last);
  }

  lemma TailEnds(start: U32, g: Log)
    requires Sound(start, g)
    ensures g.s.slab + g.s.left <= g.s.end
  {
    if g.s.left > 0 {
      var i :| 0 <= i < |g.blocks| && g.blocks[i].slab
        && Within(Block(g.s.slab, g.s.left, false), g.blocks[i]);
    }
  }

  /** Before the cut: the slab at hand is sound and large enough. */
  lemma WithSlabIsSound(start: U32, g: Log, size: U32)
    requires Sound(start, g) && Served(g, Allocate(size))
    ensures var h := Log(WithSlab(g.s, size), Step(g, Allocate(size)).blocks, g.objects);
      Sound(start, h) && size <= h.s.left && h.s.slab + h.s.left <= h.s.end
  {
    if size > g.s.left {
      NewSlabIsSound(start, g, size);
    } else {
      TailEnds(start, g);
      assert Step(g, Allocate(size)).blocks == g.blocks;
    }
  }

  lemma CutIsSound(start: U32, h: Log, size: U32)
    requires Sound(start, h) && 0 <= size <= h.s.left && h.s.slab + h.s.left <= h.s.end
    ensures Sound(start, Log(State(h.s.end, h.s.slab + size, h.s.left - size), h.blocks,
                             h.objects + [Block(h.s.slab, size, false)]))
  {
    PiecesInSlab(h.s.slab, h.s.left, size, h.blocks);
    ObjectsStay(h.s.slab, h.s.slab + size, h.blocks, h.blocks, h.objects);
  }

  lemma CutIs(s: State, size: U32)
    requires var t := WithSlab(s, size); size <= t.left && t.slab + t.left <= t.end <= LIMIT
    ensures var t := WithSlab(s, size);
      Cut(s, size) == (State(t.end, t.slab + size, t.left - size), t.slab)
  {
    var t := WithSlab(s, size);
    assert (t.slab + size) % WRAP == t.slab + size;
    assert Signed(t.left - size) == t.left - size;
  }

  lemma AllocateIsSound(start: U32, g: Log, size: U32)
    requires Sound(start, g) && Served(g, Allocate(size))
    ensures Sound(start, Step(g, Allocate(size)))
  {
    WithSlabIsSound(start, g, size);
    CutIs(g.s, size);
    var g' := Step(g, Allocate(size));
    CutIsSound(start, Log(WithSlab(g.s, size), g'.blocks, g.objects), size);
  }

  /** An object that has bytes lies in a granted slab exactly when it is small enough
      and any slab it needs is granted: neither is checked. */
  lemma ServedVerdict(start: U32, g: Log, size: U32)
    requires Sound(start, g) && size > 0
    ensures size <= 1020 && (size > g.s.left ==> Aligned(g.s.end) + 1020 <= 0x1800_0000)
       <==> InSlab(Block(Cut(g.s, size).1, size, false), Step(g, Allocate(size)).blocks)
  {
    var r := Allocate(size);
    var o, blocks := Block(Cut(g.s, size).1, size, false), Step(g, r).blocks;
    ExtendIs(g.s.end, SLAB);
    if Served(g, r) {
      AllocateIsSound(start, g, size);
      assert Step(g, r).objects[|g.objects|] == o;
    } else {
      GrantIsSound(start, g, SLAB, true);
      assert !InSlab(o, blocks);
    }
  }

  // ---- Every run ----

  function Run(g: Log, reqs: seq<Request>): Log
    requires forall r | r in reqs :: r.Sbrk? ==> r.incr >= 0
    decreases |reqs|
  {
    if reqs == [] then g else Run(Step(g, reqs[0]), reqs[1..])
  }

  predicate ServedRun(g: Log, reqs: seq<Request>)
    decreases |reqs|
  {
    reqs == [] || (Served(g, reqs[0]) && ServedRun(Step(g, reqs[0]), reqs[1..]))
  }

  lemma {:induction false} ServedIsPositive(g: Log, reqs: seq<Request>)
    requires ServedRun(g, reqs)
    ensures forall r | r in reqs :: r.Sbrk? ==> r.incr >= 0
    decreases |reqs|
  {
    if reqs != [] {
      ServedIsPositive(Step(g, reqs[0]), reqs[1..]);
      assert reqs == [reqs[0]] + reqs[1..];
    }
  }

  lemma {:induction false} RunIsSound(start: U32, g: Log, reqs: seq<Request>)
    requires Sound(start, g) && ServedRun(g, reqs)
    requires forall r | r in reqs :: r.Sbrk? ==> r.incr >= 0
    ensures Sound(start, Run(g, reqs))
    decreases |reqs|
  {
    if reqs != [] {
      match reqs[0] {
        case Sbrk(incr) => SbrkIsSound(start, g, incr);
        case Allocate(size) => AllocateIsSound(start, g, size);
      }
      RunIsSound(start, Step(g, reqs[0]), reqs[1..]);
    }
  }

  /** An object keeps clear of everything in the heap but its own slab. */
  lemma ObjectIsApart(start: U32, g: Log, k: nat, j: nat)
    requires Sound(start, g) && k < |g.objects| && j < |g.blocks| && g.objects[k].size > 0
    ensures Disjoint(g.objects[k], g.blocks[j]) || (g.blocks[j].slab && Within(g.objects[k], g.blocks[j]))
  {
    var o := g.objects[k];
    assert InSlab(o, g.blocks);
    var i :| 0 <= i < |g.blocks| && g.blocks[i].slab && Within(o, g.blocks[i]);
    if i < j {
      assert g.blocks[i].addr + g.blocks[i].size <= g.blocks[j].addr;
    } else if j < i {
      assert g.blocks[j].addr + g.blocks[j].size <= g.blocks[i].addr;
    }
  }

  /** From reset, over every run the allocator can serve: blocks are aligned, inside
      the heap and apart; objects lie in slabs, apart from one another and from
      every block that is not theirs. */
  lemma NothingOverlaps(start: U32, reqs: seq<Request>)
    requires start <= LIMIT && ServedRun(Log(State(start, 0, 0), [], []), reqs)
    ensures forall r | r in reqs :: r.Sbrk? ==> r.incr >= 0
    ensures var g := Run(Log(State(start, 0, 0), [], []), reqs);
      && (forall i | 0 <= i < |g.blocks| :: g.blocks[i].addr % 4 == 0
            && start <= g.blocks[i].addr && g.blocks[i].addr + g.blocks[i].size <= LIMIT)
      && (forall i, j | 0 <= i < |g.blocks| && 0 <= j < |g.blocks| && i != j ::
            Disjoint(g.blocks[i], g.blocks[j]))
      && (forall k, m | 0 <= k < |g.objects| && 0 <= m < |g.objects| && k != m ::
            Disjoint(g.objects[k], g.objects[m]))
      && (forall k | 0 <= k < |g.objects| :: InSlab(g.objects[k], g.blocks))
      && (forall k, j | 0 <= k < |g.objects| && 0 <= j < |g.blocks| && g.objects[k].size > 0 ::
            Disjoint(g.objects[k], g.blocks[j]) || (g.blocks[j].slab && Within(g.objects[k], g.blocks[j])))
  {
    var g0 := Log(State(start, 0, 0), [], []);
    ServedIsPositive(g0, reqs);
    RunIsSound(start, g0, reqs);
    var g := Run(g0, reqs);
    forall k, j | 0 <= k < |g.objects| && 0 <= j < |g.blocks| && g.objects[k].size > 0
      ensures Disjoint(g.objects[k], g.blocks[j]) || (g.blocks[j].slab && Within(g.objects[k], g.blocks[j]))
    {
      ObjectIsApart(start, g, k, j);
    }
  }

  // ---- A run that is not served ----

  const RESET := Log(State(0x1000_0000, 0, 0), [], [])
  const MOST := Sbrk(0x7FF_FF00)   // all but the last 256 bytes

  /** Every object of the profiler has 12 bytes, so a refused slab is what can go
      wrong: with the heap almost used up, the object is handed out at the address of
      the failure. */
  lemma RefusedSlabIsUsed()
    ensures ServedRun(RESET, [MOST]) && !Served(Step(RESET, MOST), Allocate(12))
    ensures Run(RESET, [MOST, Allocate(12)]).objects == [Block(FAILED, 12, false)]
    ensures Run(RESET, [MOST, Allocate(12)]).blocks == [Block(0x1000_0000, 0x7FF_FF00, false)]
  {
    var g := Step(RESET, MOST);
    assert Extend(0x1000_0000, 0x7FF_FF00) == (0x17FF_FF00, 0x1000_0000);
    assert Extend(0x17FF_FF00, SLAB) == (0x17FF_FF00, FAILED);
    assert [MOST][1..] == [] && [MOST, Allocate(12)][1..] == [Allocate(12)] && [Allocate(12)][1..] == [];
    assert Run(g, [Allocate(12)]) == Run(Step(g, Allocate(12)), []);
    assert Run(RESET, [MOST, Allocate(12)]) == Run(g, [Allocate(12)]);
  }
}
