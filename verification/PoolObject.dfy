/** The pool allocator as an object that updates its fields. */
module PoolObject {
  import opened PoolSteps
  import opened PoolRuns

  class PoolAllocator {
    const checking: bool
    const blockSize: nat
    const size: nat
    var initialized: bool
    var id: nat
    var perBlock: nat
    var eltSize: nat
    var returned: int
    var virgin: int
    var virginLeft: int
    var eltsAllocated: int
    var eltsFree: int
    var blockCount: int
    var blockList: int
    var mem: map<int, int>
    var marks: map<int, int>

    ghost function State(): Pool
      reads this
    {
      Pool(checking, blockSize, size, initialized, id, perBlock, eltSize, returned, virgin, virginLeft, eltsAllocated,
                eltsFree, blockCount, blockList, mem, marks)
    }

    constructor (checking: bool, blockSize: nat, size: nat)
      ensures State() == New(checking, blockSize, size) && Valid(State(), Book({}, [], []))
    {
      this.checking, this.blockSize, this.size := checking, blockSize, size;
      initialized, id, perBlock, eltSize := false, 0, 0, 0;
      returned, virgin, virginLeft := 0, 0, 0;
      eltsAllocated, eltsFree, blockCount, blockList := 0, 0, 0, 0;
      mem, marks := map[], map[];
    }

    method InitializePool(lastId: nat) returns (lastId': nat)
      requires !initialized && lastId < IDS && blockSize >= HEADER
      modifies this
      ensures State() == Initialize(old(State()), lastId) && lastId' == id
    {
      hide AlignEight, NextId, PerBlock;
      initialized := true;
      var s := size;
      if s < 8 { s := 8; }
      s := AlignEight(s);
      if checking { s := s + 8; }
      eltSize := s;
      perBlock := PerBlock(blockSize, s);
      lastId' := NextId(lastId);
      id := lastId';
    }

    /** Gives out an element; `block` is what the block allocator would return. */
    method AllocateElement(lastId: nat, block: int, ghost b: Book) returns (header: int, lastId': nat, ghost b': Book)
      requires Valid(State(), b) && Roomy(State()) && lastId < IDS && Fresh(State(), b, block)
      modifies this
      ensures (State(), b') == Step(old(State()), b, Allocate(lastId, block))
      ensures Valid(State(), b') && Roomy(State())
      ensures exists s :: s !in b.live && b'.live == b.live + {s} && header == Data(State(), s)
    {
      hide Valid, PrepareBook, Fresh, Data, AddBlock, TakeVirgin, Initialize, EltSize;
      ghost var start := State();
      StepValid(start, b, Allocate(lastId, block));
      PrepareValid(start, b, lastId, block);
      ghost var q := if start.initialized then start else Initialize(start, lastId);
      ghost var c := PrepareBook(q, b, block);
      lastId' := lastId;
      if !initialized {
        lastId' := InitializePool(lastId);
      }
      if returned == 0 {
        if virginLeft == 0 {
          MakeBlock(block);
        }
        FreeVirgin();
      }
      PopValid(State(), c);
      ghost var ready := State();
      header := returned;
      returned := mem[header];
      eltsFree := eltsFree - 1;
      marks := marks[header := id];
      b' := c.(live := c.live + {c.free[0]}, free := c.free[1..]);
      FirstIsFree(ready, c);
      ShapeKept(ready, State(), c, c);
      assert header == Data(State(), c.free[0]);
    }

    method MakeBlock(block: int)
      modifies this
      ensures State() == AddBlock(old(State()), block)
    {
      mem := mem[block := blockList];
      blockList := block;
      virgin := block + HEADER;
      virginLeft := perBlock;
      eltsAllocated := eltsAllocated + perBlock;
      eltsFree := eltsFree + perBlock;
      blockCount := blockCount + 1;
    }

    method FreeVirgin()
      modifies this
      ensures State() == TakeVirgin(old(State()))
    {
      var header := virgin + if checking then 8 else 0;
      mem := mem[header := 0];
      marks := marks[header := 0];
      returned := header;
      virgin := virgin + eltSize;
      virginLeft := virginLeft - 1;
    }

    method RemoveElement(data: int, ghost b: Book, ghost s: Slot) returns (ghost b': Book)
      requires Valid(State(), b) && Roomy(State()) && s in b.live && data == Data(State(), s)
      modifies this
      ensures (State(), b') == Step(old(State()), b, Remove(s))
      ensures Valid(State(), b') && Roomy(State())
    {
      hide Valid, Prepare, PrepareBook, Fresh, Roomy, Data;
      StepValid(State(), b, Remove(s));
      marks := marks[data := 0];
      mem := mem[data := returned];
      returned := data;
      eltsFree := eltsFree + 1;
      b' := b.(live := b.live - {s}, free := [s] + b.free);
    }

    /** Gives back every owned block, each of them once. */
    method ReleaseBlocks(ghost b: Book) returns (released: seq<int>)
      requires Valid(State(), b)
      modifies this
      ensures State() == Reset(old(State())) && Valid(State(), Book({}, [], []))
      ensures released == b.blocks
    {
      hide Valid;
      ResetValid(State(), b);
      released := [];
      BlocksChained(State(), b);
      if !initialized { return; }
      var block := blockList;
      ghost var n := 0;
      while block != 0
        invariant n <= |b.blocks| && released == b.blocks[..n]
        invariant block == if n < |b.blocks| then b.blocks[n] else 0
        invariant State() == old(State())
        decreases |b.blocks| - n
      {
        assert mem[b.blocks[n]] == After(b.blocks, n);
        var next := mem[block];
        released := released + [block];
        n := n + 1;
        block := next;
      }
      assert n == |b.blocks|;
      returned, virgin, virginLeft := 0, 0, 0;
      eltsAllocated, eltsFree, blockCount, blockList := 0, 0, 0, 0;
      mem, marks := map[], map[];
    }

    method ReleaseIfNoneLive(ghost b: Book) returns (released: seq<int>)
      requires Valid(State(), b)
      modifies this
      ensures b.live == {} ==> State() == Reset(old(State())) && released == b.blocks
      ensures b.live != {} ==> State() == old(State()) && released == []
    {
      EmptyMeansNoneLive(State(), b);
      released := [];
      if eltsFree == eltsAllocated {
        released := ReleaseBlocks(b);
      }
    }

    method NumEltsCurrent(ghost b: Book) returns (n: int)
      requires Valid(State(), b)
      ensures n == |b.live|
    {
      ValidMeans(State(), b);
      n := eltsAllocated - eltsFree;
    }
  }

  lemma BlocksChained(p: Pool, b: Book)
    requires Valid(p, b)
    ensures !p.initialized ==> b.blocks == []
    ensures p.initialized ==> Chain(p.mem, p.blockList, b.blocks)
  {
  }

  lemma FirstIsFree(p: Pool, c: Book)
    requires p.initialized && Valid(p, c) && c.free != []
    ensures c.free[0] in c.free && c.free[0] !in c.live
  {
    assert c.free[0] in c.free;
  }
}
