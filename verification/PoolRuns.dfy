/** Runs of the pool allocator: what every sequence of allocations and releases keeps. */
module PoolRuns {
  import opened PoolSteps

  // ----- Operations -----

  /** Makes sure the free list is not empty. */
  function Prepare(p: Pool, lastId: nat, block: int): Pool
    requires lastId < IDS && p.blockSize >= HEADER
  {
    var q := if p.initialized then p else Initialize(p, lastId);
    if q.returned != 0 then q else TakeVirgin(if q.virginLeft != 0 then q else AddBlock(q, block))
  }

  ghost function PrepareBook(q: Pool, b: Book, block: int): Book {
    if q.returned != 0 then b
    else
      var c := if q.virginLeft != 0 then b else b.(blocks := [block] + b.blocks);
      var left := if q.virginLeft != 0 then q.virginLeft else q.perBlock;
      if c.blocks != [] && left <= q.perBlock then c.(free := [Slot(c.blocks[0], q.perBlock - left)]) else c
  }

  /** A block from the block allocator: not null and apart from the blocks owned. */
  ghost predicate Fresh(p: Pool, b: Book, block: int) {
    block > 0 && forall i :: 0 <= i < |b.blocks| ==> Apart(block, b.blocks[i], p.blockSize)
  }

  /** A block holds its header and one element. */
  predicate Roomy(p: Pool) {
    p.blockSize >= HEADER + EltSize(p.checking, p.size)
  }

  lemma PrepareValid(p: Pool, b: Book, lastId: nat, block: int)
    requires Valid(p, b) && lastId < IDS && Roomy(p) && Fresh(p, b, block)
    ensures var q := if p.initialized then p else Initialize(p, lastId);
            var r, c := Prepare(p, lastId, block), PrepareBook(q, b, block);
            r.initialized && Valid(r, c) && c.free != [] && c.live == b.live && r.returned in r.mem
  {
    hide AddBlock, TakeVirgin, Initialize, Valid, Apart;
    if !p.initialized {
      NothingYet(p, b);
      InitializeValid(p, lastId);
    }
    var q := if p.initialized then p else Initialize(p, lastId);
    assert q.initialized && Valid(q, b) && q.blockSize == p.blockSize by { InitializeShape(p, lastId); }
    HeadMeansFree(q, b);
    if q.returned == 0 {
      if q.virginLeft == 0 {
        AddBlockValid(q, b, block);
        AddBlockShape(q, block);
        TakeVirginValid(AddBlock(q, block), b.(blocks := [block] + b.blocks));
        TakeVirginShape(AddBlock(q, block));
      } else {
        TakeVirginValid(q, b);
        TakeVirginShape(q);
      }
    }
    var c := PrepareBook(q, b, block);
    PopValid(Prepare(p, lastId, block), c);
  }

  lemma NothingYet(p: Pool, b: Book)
    requires Valid(p, b) && !p.initialized
    ensures b == Book({}, [], [])
  {
  }

  lemma InitializeShape(p: Pool, lastId: nat)
    requires lastId < IDS && p.blockSize >= HEADER
    ensures Initialize(p, lastId).initialized && Initialize(p, lastId).blockSize == p.blockSize
  {
  }

  lemma AddBlockShape(p: Pool, block: int)
    ensures var q := AddBlock(p, block);
            q.initialized == p.initialized && q.virginLeft == p.perBlock == q.perBlock && q.returned == p.returned
  {
  }

  lemma TakeVirginShape(p: Pool)
    ensures TakeVirgin(p).initialized == p.initialized
  {
  }

  /** The free list is empty exactly when its head is null; a block with virgin elements exists where some are left. */
  lemma HeadMeansFree(p: Pool, b: Book)
    requires p.initialized && Valid(p, b)
    ensures p.returned == 0 <==> b.free == []
    ensures 0 <= p.virginLeft <= p.perBlock && p.perBlock >= 1 && (p.virginLeft > 0 ==> b.blocks != [])
  {
    if b.free != [] {
      assert Datas(p, b.free)[0] != 0;
    }
  }

  // ----- Runs -----

  /** What may happen to a pool: its operations, and writes by the owners of live objects. */
  datatype Op =
    | Allocate(lastId: nat, block: int)
    | Remove(slot: Slot)
    | Release
    | ReleaseIfEmpty
    | Write(mem: map<int, int>)

  /** The data of element `s`. */
  ghost predicate Within(p: Pool, s: Slot, a: int) {
    Data(p, s) <= a < Data(p, s) + p.eltSize - DataOffset(p)
  }

  /** Memory changed only inside live objects. */
  ghost predicate ClientWrote(p: Pool, b: Book, mem: map<int, int>) {
    forall a :: a in p.mem && (forall s :: s in b.live ==> !Within(p, s, a)) ==> a in mem && mem[a] == p.mem[a]
  }

  ghost predicate Legal(p: Pool, b: Book, op: Op) {
    match op
    case Allocate(lastId, block) => lastId < IDS && Fresh(p, b, block)
    case Remove(s) => s in b.live
    case Write(mem) => ClientWrote(p, b, mem)
    case _ => true
  }

  ghost function Step(p: Pool, b: Book, op: Op): (r: (Pool, Book))
    requires Valid(p, b) && Roomy(p) && Legal(p, b, op)
  {
    match op
    case Allocate(lastId, block) =>
      PrepareValid(p, b, lastId, block);
      var q := if p.initialized then p else Initialize(p, lastId);
      var c := PrepareBook(q, b, block);
      (Pop(Prepare(p, lastId, block)), c.(live := c.live + {c.free[0]}, free := c.free[1..]))
    case Remove(s) => (Push(p, Data(p, s)), b.(live := b.live - {s}, free := [s] + b.free))
    case Release => (Reset(p), Book({}, [], []))
    case ReleaseIfEmpty => if p.eltsFree == p.eltsAllocated then (Reset(p), Book({}, [], [])) else (p, b)
    case Write(mem) => (p.(mem := mem), b)
  }

  lemma ResetValid(p: Pool, b: Book)
    requires Valid(p, b)
    ensures Valid(Reset(p), Book({}, [], []))
  {
  }

  lemma WriteValid(p: Pool, b: Book, mem: map<int, int>)
    requires Valid(p, b) && ClientWrote(p, b, mem)
    ensures p.initialized ==> Valid(p.(mem := mem), b)
  {
    if p.initialized {
      hide Lists, BlocksApart, Sized, Owned, Elements, Accounted, ClientWrote;
      var q := p.(mem := mem);
      WriteLists(p, b, mem);
      ShapeKept(p, q, b, b);
      SameOwned(p, b, q, b);
      SameElements(p, b, q);
    }
  }

  lemma WriteLists(p: Pool, b: Book, mem: map<int, int>)
    requires p.initialized && Valid(p, b) && Lists(p, b) && ClientWrote(p, b, mem)
    ensures Lists(p.(mem := mem), b)
  {
    hide Valid, Within, Data, Chain;
    var q := p.(mem := mem);
    ListsOutside(p, b);
    ShapeKept(p, q, b, b);
    assert Datas(q, b.free) == Datas(p, b.free);
    ChainSurvives(p, b, mem, p.blockList, b.blocks);
    ChainSurvives(p, b, mem, p.returned, Datas(p, b.free));
  }

  lemma ChainSurvives(p: Pool, b: Book, mem: map<int, int>, head: int, nodes: seq<int>)
    requires ClientWrote(p, b, mem) && Chain(p.mem, head, nodes)
    requires forall i, s :: 0 <= i < |nodes| && s in b.live ==> !Within(p, s, nodes[i])
    ensures Chain(mem, head, nodes)
  {
    hide Within;
    ChainFrame(p.mem, mem, head, nodes);
  }

  lemma SameElements(p: Pool, b: Book, q: Pool)
    requires SameShape(p, q) && q.virginLeft == p.virginLeft && Elements(p, b) && Accounted(p, b)
    ensures Elements(q, b) && Accounted(q, b)
  {
    hide Used;
    ShapeKept(p, q, b, b);
  }

  /** The links lie outside the live objects. */
  lemma ListsOutside(p: Pool, b: Book)
    requires p.initialized && Valid(p, b)
    ensures forall i, s :: 0 <= i < |b.blocks| && s in b.live ==> !Within(p, s, b.blocks[i])
    ensures forall i, s :: 0 <= i < |b.free| && s in b.live ==> !Within(p, s, Data(p, b.free[i]))
  {
    hide Lists, Owned, Counted, Accounted, Sized, BlocksApart, Within, Data;
    forall i, s | 0 <= i < |b.blocks| && s in b.live ensures !Within(p, s, b.blocks[i]) {
      assert Used(p, b, s);
      HeaderOutside(p, b, s, b.blocks[i]);
    }
    forall i, s | 0 <= i < |b.free| && s in b.live ensures !Within(p, s, Data(p, b.free[i])) {
      assert Used(p, b, s) && Used(p, b, b.free[i]) && b.free[i] in b.free;
      FreeOutside(p, b, s, b.free[i]);
    }
  }

  lemma FreeOutside(p: Pool, b: Book, s: Slot, t: Slot)
    requires Sized(p) && BlocksApart(p.blockSize, b.blocks) && Used(p, b, s) && Used(p, b, t) && s != t
    ensures !Within(p, s, Data(p, t))
  {
    SlotsApart(p, b, s, t);
  }

  lemma HeaderOutside(p: Pool, b: Book, s: Slot, block: int)
    requires Sized(p) && BlocksApart(p.blockSize, b.blocks) && Used(p, b, s) && block in b.blocks
    ensures !Within(p, s, block)
  {
    InBlock(p, s);
    if s.block != block { BlocksOf(p.blockSize, b.blocks, s.block, block); }
  }

  lemma StepValid(p: Pool, b: Book, op: Op)
    requires Valid(p, b) && Roomy(p) && Legal(p, b, op) && (op.Write? ==> p.initialized)
    ensures var (q, c) := Step(p, b, op);
            Valid(q, c) && Roomy(q)
  {
    hide Valid, Prepare, PrepareBook, Fresh, ClientWrote;
    match op
    case Allocate(lastId, block) =>
      PrepareValid(p, b, lastId, block);
      var q := if p.initialized then p else Initialize(p, lastId);
      PopValid(Prepare(p, lastId, block), PrepareBook(q, b, block));
      PrepareShape(p, lastId, block);
    case Remove(s) =>
      LiveMeansInitialized(p, b, s);
      PushValid(p, b, s);
    case Release => ResetValid(p, b);
    case ReleaseIfEmpty => ResetValid(p, b);
    case Write(mem) => WriteValid(p, b, mem);
  }

  lemma PrepareShape(p: Pool, lastId: nat, block: int)
    requires lastId < IDS && p.blockSize >= HEADER
    ensures var q := Prepare(p, lastId, block);
            q.blockSize == p.blockSize && q.checking == p.checking && q.size == p.size
  {
  }

  lemma LiveMeansInitialized(p: Pool, b: Book, s: Slot)
    requires Valid(p, b) && s in b.live
    ensures p.initialized
  {
  }

  /** Every operation of the run is allowed where it happens: blocks come fresh, only live objects are removed, and clients write
      only to their objects. */
  ghost predicate LegalRun(p: Pool, b: Book, ops: seq<Op>)
    requires Valid(p, b) && Roomy(p)
    decreases |ops|
  {
    if ops == [] then true
    else
      && Legal(p, b, ops[0]) && (ops[0].Write? ==> p.initialized)
      && (StepValid(p, b, ops[0]); LegalRun(Step(p, b, ops[0]).0, Step(p, b, ops[0]).1, ops[1..]))
  }

  ghost function Run(p: Pool, b: Book, ops: seq<Op>): (r: (Pool, Book))
    requires Valid(p, b) && Roomy(p) && LegalRun(p, b, ops)
    ensures Valid(r.0, r.1)
    decreases |ops|
  {
    if ops == [] then (p, b)
    else
      StepValid(p, b, ops[0]);
      Run(Step(p, b, ops[0]).0, Step(p, b, ops[0]).1, ops[1..])
  }

  // ----- Main results -----

  /** After any legal run of a new pool, distinct live objects do not overlap, each lies in an owned block behind its header with
      room for the size asked for, no owned block overlaps another, and the counters are what they say: elements free are the
      free list and the virgin remainder, elements allocated are those of the owned blocks, and their difference is the number
      of live objects. */
  lemma AfterAnyRun(checking: bool, blockSize: nat, size: nat, ops: seq<Op>)
    requires Roomy(New(checking, blockSize, size)) && LegalRun(New(checking, blockSize, size), Book({}, [], []), ops)
    ensures var (p, b) := Run(New(checking, blockSize, size), Book({}, [], []), ops);
            && (forall s, t :: s in b.live && t in b.live && s != t ==> Apart(Data(p, s), Data(p, t), p.eltSize))
            && (forall s :: s in b.live ==> LiesInside(p, b, s))
            && BlocksApart(p.blockSize, b.blocks)
            && p.eltsFree == |b.free| + p.virginLeft
            && p.eltsAllocated == |b.blocks| * p.perBlock
            && p.eltsAllocated - p.eltsFree == |b.live|
  {
    var (p, b) := Run(New(checking, blockSize, size), Book({}, [], []), ops);
    ValidMeans(p, b);
  }

  ghost predicate LiesInside(p: Pool, b: Book, s: Slot) {
    && s.block in b.blocks
    && s.block + HEADER <= Data(p, s) - DataOffset(p)
    && Data(p, s) + p.size <= Data(p, s) - DataOffset(p) + p.eltSize <= s.block + p.blockSize
  }

  lemma ValidMeans(p: Pool, b: Book)
    requires Valid(p, b)
    ensures forall s, t :: s in b.live && t in b.live && s != t ==> Apart(Data(p, s), Data(p, t), p.eltSize)
    ensures forall s :: s in b.live ==> LiesInside(p, b, s)
    ensures BlocksApart(p.blockSize, b.blocks) && p.eltsFree == |b.free| + p.virginLeft
    ensures p.eltsAllocated == |b.blocks| * p.perBlock && p.eltsAllocated - p.eltsFree == |b.live|
  {
    if p.initialized {
      hide Lists, Owned, Accounted, BlocksApart, Data, Apart;
      forall s, t | s in b.live && t in b.live && s != t ensures Apart(Data(p, s), Data(p, t), p.eltSize) {
        SlotsApart(p, b, s, t);
      }
      forall s | s in b.live ensures LiesInside(p, b, s) {
        assert Used(p, b, s);
        InBlock(p, s);
      }
    }
  }

  /** Among the elements ever given out, the owner mark that removal insists on is that of the pool exactly on the live ones. */
  lemma MarkMeansLive(p: Pool, b: Book, s: Slot)
    requires p.initialized && Valid(p, b) && Used(p, b, s)
    ensures Data(p, s) in p.marks && (p.marks[Data(p, s)] == p.id <==> s in b.live)
  {
    if s !in b.live {
      assert s in b.free;
      var i :| 0 <= i < |b.free| && b.free[i] == s;
    }
  }

  /** The pool is released when empty exactly when no object is live. */
  lemma EmptyMeansNoneLive(p: Pool, b: Book)
    requires Valid(p, b)
    ensures p.eltsFree == p.eltsAllocated <==> b.live == {}
  {
    if p.initialized { assert |b.live| == 0 <==> b.live == {}; }
  }

  /** An object removed is the next one given out. */
  lemma LastRemovedFirstGiven(p: Pool, b: Book, s: Slot, lastId: nat, block: int)
    requires p.initialized && Valid(p, b) && s in b.live && lastId < IDS && Roomy(p)
    ensures var q := Push(p, Data(p, s));
            Prepare(q, lastId, block) == q && q.returned == Data(p, s)
  {
    PushValid(p, b, s);
    AddressIsOwn(p, b, s);
  }

  /** A new block is taken exactly when every element of the owned blocks is live; otherwise none is. */
  lemma BlockOnlyWhenFull(p: Pool, b: Book, lastId: nat, block: int)
    requires Valid(p, b) && Roomy(p) && lastId < IDS && Fresh(p, b, block)
    ensures Step(p, b, Allocate(lastId, block)).1.blocks ==
            if |b.live| == |b.blocks| * p.perBlock then [block] + b.blocks else b.blocks
  {
    hide Apart, Data, Owned, Accounted, Elements, BlocksApart;
    PrepareValid(p, b, lastId, block);
    var q := if p.initialized then p else Initialize(p, lastId);
    if p.initialized {
      HeadMeansFree(p, b);
    } else {
      NothingYet(p, b);
    }
  }
}
