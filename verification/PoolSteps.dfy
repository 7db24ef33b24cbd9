/** The pool allocator: blocks cut into elements, a free list threaded through the dead ones, a virgin remainder of the newest
    block, and counters. */
module PoolSteps {

  // ----- The allocator as a machine -----

  /** An element of a block. */
  datatype Slot = Slot(block: int, index: nat)

  /** The fields of the allocator, the words of memory it reads back (links of free elements and of blocks) and the owner marks
      in front of the elements.  Null is 0.  `checking` says whether elements carry an owner mark. */
  datatype Pool = Pool(checking: bool, blockSize: nat, size: nat, initialized: bool, id: nat, perBlock: nat, eltSize: nat,
                       returned: int, virgin: int, virginLeft: int, eltsAllocated: int, eltsFree: int, blockCount: int,
                       blockList: int,
                       mem: map<int, int>, marks: map<int, int>)

  const HEADER := 8

  function AlignEight(x: nat): (r: nat)
    ensures r % 8 == 0 && x <= r < x + 8
  {
    (x + 7) / 8 * 8
  }

  /** Where the data of an element starts in it. */
  function DataOffset(p: Pool): nat {
    if p.checking then 8 else 0
  }

  function New(checking: bool, blockSize: nat, size: nat): Pool {
    Pool(checking, blockSize, size, false, 0, 0, 0, 0, 0, 0, 0, 0, 0, 0, map[], map[])
  }

  const IDS := 0x1_0000_0000_0000_0000

  /** The next pool number: 0 marks a free element and is skipped. */
  function NextId(last: nat): (r: nat)
    requires last < IDS
    ensures 0 < r < IDS && (last + 1 < IDS ==> r == last + 1)
  {
    if (last + 1) % IDS == 0 then 1 else last + 1
  }

  function EltSize(checking: bool, size: nat): (r: nat)
    ensures r >= size + (if checking then 8 else 0) && r >= 8 + (if checking then 8 else 0) && r % 8 == 0
    ensures r == 8 + (if checking then 8 else 0) || r < size + 8 + if checking then 8 else 0
  {
    AlignEight(if size < 8 then 8 else size) + if checking then 8 else 0
  }

  /** How many elements a block holds behind its header. */
  function PerBlock(blockSize: nat, eltSize: nat): nat
    requires blockSize >= HEADER && eltSize > 0
  {
    (blockSize - HEADER) / eltSize
  }

  /** A block holds that many elements, and not one more. */
  lemma BlockFilled(blockSize: nat, eltSize: nat)
    requires blockSize >= HEADER && eltSize > 0
    ensures var n := PerBlock(blockSize, eltSize);
            HEADER + n * eltSize <= blockSize < HEADER + (n + 1) * eltSize
  {
    var room := blockSize - HEADER;
    var n := room / eltSize;
    assert room == n * eltSize + room % eltSize;
    assert (n + 1) * eltSize == n * eltSize + eltSize;
  }

  function Initialize(p: Pool, lastId: nat): Pool
    requires lastId < IDS && p.blockSize >= HEADER
  {
    var eltSize := EltSize(p.checking, p.size);
    p.(initialized := true, eltSize := eltSize, perBlock := PerBlock(p.blockSize, eltSize), id := NextId(lastId))
  }

  /** First use settles the sizes: an element is the least multiple of 8 that holds the mark, and the data or a link; a block holds
      as many as fit behind its header, and not one more. The pool gets a new number. */
  lemma InitializeFills(p: Pool, lastId: nat)
    requires lastId < IDS && p.blockSize >= HEADER
    ensures var q, n := Initialize(p, lastId), DataOffset(p) + if p.size < 8 then 8 else p.size;
            && q.eltSize % 8 == 0 && n <= q.eltSize < n + 8
            && HEADER + q.perBlock * q.eltSize <= p.blockSize < HEADER + (q.perBlock + 1) * q.eltSize
            && 0 < q.id < IDS && (q.id == lastId + 1 || lastId + 1 == IDS)
  {
    hide PerBlock;
    BlockFilled(p.blockSize, EltSize(p.checking, p.size));
  }

  function AddBlock(p: Pool, block: int): Pool {
    p.(mem := p.mem[block := p.blockList], blockList := block, virgin := block + HEADER, virginLeft := p.perBlock,
    eltsAllocated := p.eltsAllocated + p.perBlock, eltsFree := p.eltsFree + p.perBlock, blockCount := p.blockCount + 1)
  }

  function TakeVirgin(p: Pool): Pool {
    var header := p.virgin + DataOffset(p);
    p.(mem := p.mem[header := 0], marks := p.marks[header := 0], returned := header, virgin := p.virgin + p.eltSize,
    virginLeft := p.virginLeft - 1)
  }

  function Pop(p: Pool): Pool
    requires p.returned in p.mem
  {
    p.(returned := p.mem[p.returned], eltsFree := p.eltsFree - 1, marks := p.marks[p.returned := p.id])
  }

  function Push(p: Pool, data: int): Pool {
    p.(marks := p.marks[data := 0], mem := p.mem[data := p.returned], returned := data, eltsFree := p.eltsFree + 1)
  }

  function Reset(p: Pool): Pool {
    if !p.initialized then p
    else p.(returned := 0, virgin := 0, virginLeft := 0, eltsAllocated := 0, eltsFree := 0, blockCount := 0, blockList := 0,
            mem := map[], marks := map[])
  }

  // ----- What the allocator is meant to hold -----

  /** The objects given out, the free elements in the order of the free list, and the owned blocks, newest first. */
  datatype Book = Book(live: set<Slot>, free: seq<Slot>, blocks: seq<int>)

  /** The address handed out for an element. */
  function Data(p: Pool, s: Slot): int {
    s.block + HEADER + s.index * p.eltSize + DataOffset(p)
  }

  /** The elements in use so far: all of the older blocks, and of the newest those before the virgin remainder. */
  predicate Used(p: Pool, b: Book, s: Slot) {
    s.block in b.blocks && s.index < p.perBlock && (s.block == b.blocks[0] ==> s.index < p.perBlock - p.virginLeft)
  }

  predicate Apart(a: int, b: int, size: nat) {
    a + size <= b || b + size <= a
  }

  /** Blocks that do not overlap and are not null. */
  ghost predicate BlocksApart(size: nat, blocks: seq<int>) {
    && (forall i :: 0 <= i < |blocks| ==> blocks[i] > 0)
    && (forall i, j :: 0 <= i < j < |blocks| ==> Apart(blocks[i], blocks[j], size))
  }

  /** A linked list in memory: `head` leads through `nodes` to null. */
  ghost predicate Chain(mem: map<int, int>, head: int, nodes: seq<int>) {
    && head == (if nodes == [] then 0 else nodes[0])
    && (forall i :: 0 <= i < |nodes| ==> nodes[i] in mem && nodes[i] != 0)
    && (forall i :: 0 <= i < |nodes| ==> mem[nodes[i]] == After(nodes, i))
  }

  function After(nodes: seq<int>, i: nat): int
    requires i < |nodes|
  {
    if i + 1 < |nodes| then nodes[i + 1] else 0
  }

  function Datas(p: Pool, slots: seq<Slot>): (r: seq<int>)
    ensures |r| == |slots| && forall i :: 0 <= i < |r| ==> r[i] == Data(p, slots[i])
  {
    seq(|slots|, i requires 0 <= i < |slots| => Data(p, slots[i]))
  }

  ghost predicate Distinct(s: seq<Slot>) {
    forall i, j :: 0 <= i < j < |s| ==> s[i] != s[j]
  }

  /** Sizes fit: an element holds the data and a link, and a block holds its elements behind its header. */
  ghost predicate Sized(p: Pool) {
    && p.eltSize >= DataOffset(p) + 8 && p.eltSize >= DataOffset(p) + p.size
    && p.perBlock >= 1 && HEADER + p.perBlock * p.eltSize <= p.blockSize
    && p.id > 0
  }

  ghost predicate Elements(p: Pool, b: Book) {
    && (forall s :: s in b.live ==> Used(p, b, s) && s !in b.free)
    && (forall i :: 0 <= i < |b.free| ==> Used(p, b, b.free[i]))
    && Distinct(b.free)
  }

  /** No element is lost: each one used so far is live or free. */
  ghost predicate Accounted(p: Pool, b: Book) {
    forall s :: Used(p, b, s) ==> s in b.live || s in b.free
  }

  ghost predicate Lists(p: Pool, b: Book) {
    && Chain(p.mem, p.blockList, b.blocks)
    && Chain(p.mem, p.returned, Datas(p, b.free))
    && 0 <= p.virginLeft <= p.perBlock
    && (if b.blocks == [] then p.virginLeft == 0 else p.virgin == b.blocks[0] + HEADER + (p.perBlock - p.virginLeft) * p.eltSize)
  }

  ghost predicate Counted(p: Pool, b: Book) {
    && p.blockCount == |b.blocks|
    && p.eltsAllocated == |b.blocks| * p.perBlock
    && p.eltsFree == |b.free| + p.virginLeft
    && |b.live| == p.eltsAllocated - p.eltsFree
  }

  /** With owner marks, live objects carry the number of the pool and free elements carry 0. */
  ghost predicate Owned(p: Pool, b: Book) {
    && (forall s :: s in b.live ==> Data(p, s) in p.marks && p.marks[Data(p, s)] == p.id)
    && (forall i :: 0 <= i < |b.free| ==> Data(p, b.free[i]) in p.marks && p.marks[Data(p, b.free[i])] == 0)
  }

  ghost predicate Valid(p: Pool, b: Book) {
    if !p.initialized then p == New(p.checking, p.blockSize, p.size) && b == Book({}, [], [])
    else
      && Sized(p) && BlocksApart(p.blockSize, b.blocks) && Elements(p, b) && Accounted(p, b) && Lists(p, b) && Counted(p, b)
      && Owned(p, b)
  }

  // ----- Geometry -----

  lemma {:induction false} MulMono(i: nat, j: nat, n: nat)
    requires i < j
    ensures i * n + n <= j * n
  {
    if j == i + 1 {
    } else {
      MulMono(i, j - 1, n);
    }
    assert j * n == (j - 1) * n + n;
  }

  /** Elements lie in their block behind the header. */
  lemma InBlock(p: Pool, s: Slot)
    requires Sized(p) && s.index < p.perBlock
    ensures s.block + HEADER <= Data(p, s) - DataOffset(p)
    ensures Data(p, s) - DataOffset(p) + p.eltSize <= s.block + p.blockSize
  {
    MulMono(s.index, p.perBlock, p.eltSize);
  }

  /** Distinct elements do not overlap. */
  lemma SlotsApart(p: Pool, b: Book, s: Slot, t: Slot)
    requires Sized(p) && BlocksApart(p.blockSize, b.blocks) && s != t
    requires s.block in b.blocks && t.block in b.blocks && s.index < p.perBlock && t.index < p.perBlock
    ensures Apart(Data(p, s), Data(p, t), p.eltSize)
  {
    InBlock(p, s);
    InBlock(p, t);
    if s.block == t.block {
      if s.index < t.index {
        MulMono(s.index, t.index, p.eltSize);
      } else {
        MulMono(t.index, s.index, p.eltSize);
      }
    } else {
      BlocksOf(p.blockSize, b.blocks, s.block, t.block);
    }
  }

  lemma BlocksOf(size: nat, blocks: seq<int>, x: int, y: int)
    requires BlocksApart(size, blocks) && x in blocks && y in blocks && x != y
    ensures Apart(x, y, size)
  {
    var i :| 0 <= i < |blocks| && blocks[i] == x;
    var j :| 0 <= j < |blocks| && blocks[j] == y;
    if i > j { assert Apart(blocks[j], blocks[i], size); } else { assert Apart(blocks[i], blocks[j], size); }
  }

  /** The data of an element is no block header. */
  lemma NotAHeader(p: Pool, b: Book, s: Slot, block: int)
    requires Sized(p) && BlocksApart(p.blockSize, b.blocks) && s.block in b.blocks && s.index < p.perBlock && block in b.blocks
    ensures Data(p, s) != block && Data(p, s) > 0
  {
    InBlock(p, s);
    if s.block != block { BlocksOf(p.blockSize, b.blocks, s.block, block); }
  }

  // ----- Each step keeps the books -----

  /** Writing where no node is keeps a list. */
  lemma ChainFrame(mem: map<int, int>, mem': map<int, int>, head: int, nodes: seq<int>)
    requires Chain(mem, head, nodes)
    requires forall i :: 0 <= i < |nodes| ==> nodes[i] in mem' && mem'[nodes[i]] == mem[nodes[i]]
    ensures Chain(mem', head, nodes)
  {
  }

  lemma ChainPush(mem: map<int, int>, head: int, nodes: seq<int>, x: int)
    requires Chain(mem, head, nodes) && x != 0 && x !in nodes
    ensures Chain(mem[x := head], x, [x] + nodes)
  {
    var all, mem' := [x] + nodes, mem[x := head];
    forall i | 0 <= i < |all|
      ensures all[i] in mem' && all[i] != 0 && mem'[all[i]] == After(all, i)
    {
      if i > 0 {
        assert all[i] == nodes[i - 1] && nodes[i - 1] in nodes;
        assert mem[nodes[i - 1]] == After(nodes, i - 1) == After(all, i);
      }
    }
  }

  lemma ChainPop(mem: map<int, int>, head: int, nodes: seq<int>)
    requires Chain(mem, head, nodes) && nodes != []
    ensures head == nodes[0] && head in mem && Chain(mem, mem[head], nodes[1..])
  {
    var rest := nodes[1..];
    assert mem[nodes[0]] == After(nodes, 0);
    forall i | 0 <= i < |rest|
      ensures rest[i] in mem && rest[i] != 0 && mem[rest[i]] == After(rest, i)
    {
      assert rest[i] == nodes[i + 1];
      assert mem[nodes[i + 1]] == After(nodes, i + 1) == After(rest, i);
    }
  }

  /** What the step functions leave alone. */
  ghost predicate SameShape(p: Pool, q: Pool) {
    q.checking == p.checking && q.eltSize == p.eltSize && q.perBlock == p.perBlock && q.blockSize == p.blockSize && q.size == p.size
    && q.id == p.id && q.initialized == p.initialized
  }

  lemma InitializeValid(p: Pool, lastId: nat)
    requires Valid(p, Book({}, [], [])) && !p.initialized && lastId < IDS
    requires p.blockSize >= HEADER + EltSize(p.checking, p.size)
    ensures Valid(Initialize(p, lastId), Book({}, [], []))
  {
    var q := Initialize(p, lastId);
    DivFits(p.blockSize - HEADER, q.eltSize);
  }

  lemma DivFits(n: nat, d: nat)
    requires d > 0 && n >= d
    ensures n / d >= 1 && n / d * d <= n
  {
  }

  lemma FreshBlock(p: Pool, b: Book, block: int)
    requires BlocksApart(p.blockSize, b.blocks) && block > 0
    requires forall i :: 0 <= i < |b.blocks| ==> Apart(block, b.blocks[i], p.blockSize)
    ensures BlocksApart(p.blockSize, [block] + b.blocks)
  {
  }

  /** A new block in front, all of it virgin. */
  lemma AddBlockValid(p: Pool, b: Book, block: int)
    requires p.initialized && Valid(p, b) && p.virginLeft == 0 && block > 0
    requires forall i :: 0 <= i < |b.blocks| ==> Apart(block, b.blocks[i], p.blockSize)
    ensures Valid(AddBlock(p, block), b.(blocks := [block] + b.blocks))
  {
    hide Elements, Lists, Owned, Apart, Accounted;
    var q, c := AddBlock(p, block), b.(blocks := [block] + b.blocks);
    FreshBlock(p, b, block);
    AddBlockElements(p, b, block);
    AddBlockAccounted(p, b, block);
    AddBlockLists(p, b, block);
    assert Owned(q, c) by { SameOwned(p, b, q, c); }
    MulStep(|b.blocks|, p.perBlock);
  }

  lemma SameOwned(p: Pool, b: Book, q: Pool, c: Book)
    requires Owned(p, b) && SameShape(p, q) && q.marks == p.marks && c.live == b.live && c.free == b.free
    ensures Owned(q, c)
  {
    forall s ensures Data(q, s) == Data(p, s) {}
  }

  lemma AddBlockElements(p: Pool, b: Book, block: int)
    requires Elements(p, b) && p.virginLeft == 0 && Sized(p)
    requires forall i :: 0 <= i < |b.blocks| ==> Apart(block, b.blocks[i], p.blockSize)
    ensures Elements(AddBlock(p, block), b.(blocks := [block] + b.blocks))
  {
    var q, c := AddBlock(p, block), b.(blocks := [block] + b.blocks);
    forall s | Used(p, b, s) ensures Used(q, c, s) {
      var i :| 0 <= i < |b.blocks| && b.blocks[i] == s.block;
      assert Apart(block, b.blocks[i], p.blockSize);
      assert c.blocks[i + 1] == s.block;
    }
  }

  lemma AddBlockAccounted(p: Pool, b: Book, block: int)
    requires Accounted(p, b) && p.virginLeft == 0
    ensures Accounted(AddBlock(p, block), b.(blocks := [block] + b.blocks))
  {
    var q, c := AddBlock(p, block), b.(blocks := [block] + b.blocks);
    forall s | Used(q, c, s) ensures Used(p, b, s) {}
  }

  lemma AddBlockLists(p: Pool, b: Book, block: int)
    requires Sized(p) && BlocksApart(p.blockSize, [block] + b.blocks) && Elements(p, b) && Lists(p, b) && block > 0
    requires forall i :: 0 <= i < |b.blocks| ==> Apart(block, b.blocks[i], p.blockSize)
    ensures Lists(AddBlock(p, block), b.(blocks := [block] + b.blocks))
  {
    hide Data, Chain, Apart, BlocksApart, Elements, Sized;
    var q, c := AddBlock(p, block), b.(blocks := [block] + b.blocks);
    BlockIsNew(p, b, block);
    ChainPush(p.mem, p.blockList, b.blocks, block);
    ChainKeeps(p.mem, p.returned, Datas(p, b.free), block, p.blockList);
    ShapeKept(p, q, b, c);
    assert Datas(q, c.free) == Datas(p, b.free);
    assert (p.perBlock - p.perBlock) * p.eltSize == 0;
  }

  lemma BlockIsNew(p: Pool, b: Book, block: int)
    requires Sized(p) && BlocksApart(p.blockSize, [block] + b.blocks) && Elements(p, b)
    requires forall i :: 0 <= i < |b.blocks| ==> Apart(block, b.blocks[i], p.blockSize)
    ensures block !in b.blocks && block !in Datas(p, b.free)
  {
    var c := b.(blocks := [block] + b.blocks);
    assert block in c.blocks;
    forall i | 0 <= i < |b.blocks| ensures b.blocks[i] != block { assert Apart(block, b.blocks[i], p.blockSize); }
    hide Data, Sized, BlocksApart, Apart;
    forall i | 0 <= i < |b.free| ensures Datas(p, b.free)[i] != block {
      assert Used(p, b, b.free[i]);
      NotAHeader(p, c, b.free[i], block);
    }
  }

  /** The first virgin element becomes the only free one. */
  lemma TakeVirginValid(p: Pool, b: Book)
    requires p.initialized && Valid(p, b) && p.virginLeft > 0 && b.free == []
    ensures Valid(TakeVirgin(p), b.(free := [Slot(b.blocks[0], p.perBlock - p.virginLeft)]))
  {
    hide Elements, Owned, BlocksApart, Data, Accounted;
    var s := Slot(b.blocks[0], p.perBlock - p.virginLeft);
    var q, c := TakeVirgin(p), b.(free := [s]);
    VirginIsOwn(p, b, s);
    ShapeKept(p, q, b, c);
    hide Sized;
    VirginElements(p, b, q, s);
    VirginAccounted(p, b, q, s);
    VirginOwned(p, b, q, s);
    VirginLists(p, b, s);
  }

  lemma VirginIsOwn(p: Pool, b: Book, s: Slot)
    requires Sized(p) && BlocksApart(p.blockSize, b.blocks) && Elements(p, b) && Lists(p, b)
    requires p.virginLeft > 0 && b.free == [] && b.blocks != [] && s == Slot(b.blocks[0], p.perBlock - p.virginLeft)
    ensures AddressOwn(p, b, s) && s !in b.live && Data(p, s) == p.virgin + DataOffset(p)
  {
    assert Data(p, s) == p.virgin + DataOffset(p);
    hide Data, Sized, BlocksApart, Lists;
    assert s.block in b.blocks;
    forall t | t in b.live ensures t != s && Data(p, t) != Data(p, s) {
      assert Used(p, b, t);
      SlotsDiffer(p, b, s, t);
    }
    forall i | 0 <= i < |b.blocks| ensures b.blocks[i] != Data(p, s) { NotAHeader(p, b, s, b.blocks[i]); }
    NotAHeader(p, b, s, s.block);
  }

  lemma SlotsDiffer(p: Pool, b: Book, s: Slot, t: Slot)
    requires Sized(p) && BlocksApart(p.blockSize, b.blocks) && s != t
    requires s.block in b.blocks && t.block in b.blocks && s.index < p.perBlock && t.index < p.perBlock
    ensures Data(p, s) != Data(p, t)
  {
    SlotsApart(p, b, s, t);
  }

  lemma VirginElements(p: Pool, b: Book, q: Pool, s: Slot)
    requires Elements(p, b) && b.free == [] && SameShape(p, q) && q.virginLeft == p.virginLeft - 1 >= 0 && b.blocks != []
    requires p.virginLeft <= p.perBlock && s == Slot(b.blocks[0], p.perBlock - p.virginLeft) && s !in b.live
    ensures Elements(q, b.(free := [s]))
  {
    assert s.block in b.blocks;
  }

  lemma VirginAccounted(p: Pool, b: Book, q: Pool, s: Slot)
    requires Accounted(p, b) && b.free == [] && SameShape(p, q) && q.virginLeft == p.virginLeft - 1 && b.blocks != []
    requires p.virginLeft <= p.perBlock && s == Slot(b.blocks[0], p.perBlock - p.virginLeft)
    ensures Accounted(q, b.(free := [s]))
  {
    var c := b.(free := [s]);
    forall t | Used(q, c, t) ensures t == s || Used(p, b, t) {}
  }

  lemma VirginOwned(p: Pool, b: Book, q: Pool, s: Slot)
    requires Owned(p, b) && b.free == [] && SameShape(p, q) && q.marks == p.marks[Data(p, s) := 0]
    requires AddressOwn(p, b, s) && s !in b.live
    ensures Owned(q, b.(free := [s]))
  {
    hide Data;
    ShapeKept(p, q, b, b);
  }

  lemma VirginLists(p: Pool, b: Book, s: Slot)
    requires Lists(p, b) && AddressOwn(p, b, s) && p.virginLeft > 0 && b.free == [] && b.blocks != []
    requires Data(p, s) == p.virgin + DataOffset(p)
    ensures Lists(TakeVirgin(p), b.(free := [s]))
  {
    hide Data, Chain;
    var q, c := TakeVirgin(p), b.(free := [s]);
    ShapeKept(p, q, b, c);
    ChainKeeps(p.mem, p.blockList, b.blocks, Data(p, s), 0);
    assert Datas(p, b.free) == [];
    ChainHead(p.mem, p.returned);
    ChainPush(p.mem, p.returned, [], Data(p, s));
    assert [Data(p, s)] + [] == [Data(p, s)];
    assert Datas(q, c.free) == [Data(p, s)];
    MulStep(p.perBlock - p.virginLeft, p.eltSize);
  }

  lemma ChainHead(mem: map<int, int>, head: int)
    requires Chain(mem, head, [])
    ensures head == 0
  {
  }

  lemma MulStep(k: int, n: int)
    ensures (k + 1) * n == k * n + n
  {
  }

  /** The elements other than `s` have addresses other than that of `s`. */
  ghost predicate AddressOwn(p: Pool, b: Book, s: Slot) {
    && (forall t :: t in b.live && t != s ==> Data(p, t) != Data(p, s))
    && (forall i :: 0 <= i < |b.free| && b.free[i] != s ==> Data(p, b.free[i]) != Data(p, s))
    && (forall i :: 0 <= i < |b.blocks| ==> b.blocks[i] != Data(p, s))
    && Data(p, s) != 0
  }

  lemma AddressIsOwn(p: Pool, b: Book, s: Slot)
    requires Sized(p) && BlocksApart(p.blockSize, b.blocks) && Elements(p, b) && Used(p, b, s)
    ensures AddressOwn(p, b, s)
  {
    hide Data, Sized, BlocksApart;
    forall t | t in b.live && t != s ensures Data(p, t) != Data(p, s) { SlotAddresses(p, b, s, t); }
    forall i | 0 <= i < |b.free| && b.free[i] != s ensures Data(p, b.free[i]) != Data(p, s) { SlotAddresses(p, b, s, b.free[i]); }
    forall i | 0 <= i < |b.blocks| ensures b.blocks[i] != Data(p, s) { NotAHeader(p, b, s, b.blocks[i]); }
    NotAHeader(p, b, s, s.block);
  }

  lemma SlotAddresses(p: Pool, b: Book, s: Slot, t: Slot)
    requires Sized(p) && BlocksApart(p.blockSize, b.blocks) && Used(p, b, s) && Used(p, b, t) && s != t
    ensures Data(p, s) != Data(p, t)
  {
    SlotsApart(p, b, s, t);
  }

  /** The first free element is given out. */
  lemma PopValid(p: Pool, b: Book)
    requires p.initialized && Valid(p, b) && b.free != []
    ensures p.returned == Data(p, b.free[0]) && p.returned in p.mem
    ensures Valid(Pop(p), b.(live := b.live + {b.free[0]}, free := b.free[1..]))
  {
    hide BlocksApart, Sized, Data, Used, AddressOwn, Chain, Owned;
    var s := b.free[0];
    assert Datas(p, b.free)[0] == Data(p, s);
    ChainPop(p.mem, p.returned, Datas(p, b.free));
    var q, c := Pop(p), b.(live := b.live + {s}, free := b.free[1..]);
    AddressIsOwn(p, b, s);
    ShapeKept(p, q, b, c);
    PopElements(p, b, q);
    PopOwned(p, b, q);
    assert Datas(q, c.free) == Datas(p, b.free)[1..];
    assert s in b.free && s !in b.live;
  }

  /** Steps that keep the shape keep addresses; with the virgin remainder and the blocks they keep which elements are used. */
  lemma ShapeKept(p: Pool, q: Pool, b: Book, c: Book)
    requires SameShape(p, q)
    ensures forall s :: Data(q, s) == Data(p, s)
    ensures Sized(p) ==> Sized(q)
    ensures c.blocks == b.blocks && q.virginLeft == p.virginLeft ==> forall s :: Used(q, c, s) == Used(p, b, s)
  {
  }

  lemma PopElements(p: Pool, b: Book, q: Pool)
    requires Elements(p, b) && b.free != [] && SameShape(p, q) && q.virginLeft == p.virginLeft
    requires Accounted(p, b)
    ensures Elements(q, b.(live := b.live + {b.free[0]}, free := b.free[1..]))
    ensures Accounted(q, b.(live := b.live + {b.free[0]}, free := b.free[1..]))
  {
    hide Used;
    var c := b.(live := b.live + {b.free[0]}, free := b.free[1..]);
    ShapeKept(p, q, b, c);
    assert b.free == [b.free[0]] + c.free;
    forall i | 0 <= i < |c.free| ensures c.free[i] == b.free[i + 1] && c.free[i] != b.free[0] && c.free[i] !in b.live {}
    assert Used(p, b, b.free[0]);
  }

  lemma PopOwned(p: Pool, b: Book, q: Pool)
    requires Owned(p, b) && b.free != [] && SameShape(p, q) && q.marks == p.marks[Data(p, b.free[0]) := p.id]
    requires AddressOwn(p, b, b.free[0]) && Distinct(b.free)
    ensures Owned(q, b.(live := b.live + {b.free[0]}, free := b.free[1..]))
  {
    hide Data;
    var c := b.(live := b.live + {b.free[0]}, free := b.free[1..]);
    ShapeKept(p, q, b, c);
    forall i | 0 <= i < |c.free| ensures c.free[i] == b.free[i + 1] && c.free[i] != b.free[0] {}
  }

  /** A live object goes to the front of the free list. */
  lemma PushValid(p: Pool, b: Book, s: Slot)
    requires p.initialized && Valid(p, b) && s in b.live
    ensures Valid(Push(p, Data(p, s)), b.(live := b.live - {s}, free := [s] + b.free))
  {
    hide BlocksApart, Sized, Data, Used, AddressOwn, Owned, Chain;
    var q, c := Push(p, Data(p, s)), b.(live := b.live - {s}, free := [s] + b.free);
    AddressIsOwn(p, b, s);
    ShapeKept(p, q, b, c);
    PushElements(p, b, q, s);
    PushOwned(p, b, q, s);
    PushLists(p, b, s);
  }

  lemma PushElements(p: Pool, b: Book, q: Pool, s: Slot)
    requires Elements(p, b) && s in b.live && SameShape(p, q) && q.virginLeft == p.virginLeft
    requires Accounted(p, b)
    ensures Elements(q, b.(live := b.live - {s}, free := [s] + b.free))
    ensures Accounted(q, b.(live := b.live - {s}, free := [s] + b.free))
  {
    hide Used;
    var c := b.(live := b.live - {s}, free := [s] + b.free);
    ShapeKept(p, q, b, c);
    forall i | 0 <= i < |c.free| ensures Used(q, c, c.free[i]) && c.free[i] !in c.live {
      if i > 0 { assert c.free[i] == b.free[i - 1]; }
    }
  }

  lemma PushOwned(p: Pool, b: Book, q: Pool, s: Slot)
    requires Owned(p, b) && s in b.live && SameShape(p, q) && q.marks == p.marks[Data(p, s) := 0]
    requires AddressOwn(p, b, s) && s !in b.free
    ensures Owned(q, b.(live := b.live - {s}, free := [s] + b.free))
  {
    hide Data;
    var c := b.(live := b.live - {s}, free := [s] + b.free);
    ShapeKept(p, q, b, c);
    forall i | 0 <= i < |c.free| ensures Data(q, c.free[i]) in q.marks && q.marks[Data(q, c.free[i])] == 0 {
      if i > 0 { assert c.free[i] == b.free[i - 1]; }
    }
  }

  lemma PushLists(p: Pool, b: Book, s: Slot)
    requires Lists(p, b) && AddressOwn(p, b, s) && s !in b.free
    ensures Lists(Push(p, Data(p, s)), b.(live := b.live - {s}, free := [s] + b.free))
  {
    var q, c := Push(p, Data(p, s)), b.(live := b.live - {s}, free := [s] + b.free);
    hide Data, Chain;
    ShapeKept(p, q, b, c);
    forall i | 0 <= i < |b.free| ensures Datas(p, b.free)[i] != Data(p, s) {
      assert b.free[i] in b.free;
    }
    ChainKeeps(p.mem, p.blockList, b.blocks, Data(p, s), p.returned);
    ChainPush(p.mem, p.returned, Datas(p, b.free), Data(p, s));
    assert Datas(q, c.free) == [Data(p, s)] + Datas(p, b.free);
  }

  lemma ChainKeeps(mem: map<int, int>, head: int, nodes: seq<int>, x: int, v: int)
    requires Chain(mem, head, nodes) && x !in nodes
    ensures Chain(mem[x := v], head, nodes)
  {
  }
}
