/** The block allocator: blocks of equal elements, each block with a list of its free and one of its used elements
    (balloc.c:112-386, balloc.h:12-40). */
module Balloc {
  import opened Dlink
  import opened Wrappers

  const SIZEOF_PTR: nat := 8
  const SIZEOF_MEMBLOCK: nat := 32    // a list node, and the pointer to the block

  // ----- the layout of a block

  /** blockheap_create makes element sizes multiples of the pointer size. */
  function Padded(size: nat): nat {
    if size % SIZEOF_PTR != 0 then (size + SIZEOF_PTR) / SIZEOF_PTR * SIZEOF_PTR else size
  }

  lemma PaddedIsLeast(size: nat, m: nat)
    requires m % SIZEOF_PTR == 0 && m >= size
    ensures Padded(size) % SIZEOF_PTR == 0 && size <= Padded(size) <= m
  {}

  function Stride(elemSize: nat): nat {
    elemSize + SIZEOF_MEMBLOCK
  }

  /** Where the k-th element of a block is; its header is before it. */
  function ElementAt(elems: nat, elemSize: nat, k: nat): nat {
    elems + k * Stride(elemSize) + SIZEOF_MEMBLOCK
  }

  function AllocSize(elemSize: nat, perBlock: nat): nat {
    (perBlock + 1) * Stride(elemSize)
  }

  lemma Strides(j: nat, k: nat, stride: nat)
    requires j < k
    ensures j * stride + stride <= k * stride
  {
    var d: nat := k - j - 1;
    assert k * stride == (j + 1 + d) * stride == j * stride + stride + d * stride;
  }

  /** Each element with its header lies inside the block. */
  lemma ElementInside(elems: nat, elemSize: nat, perBlock: nat, k: nat)
    requires k < perBlock
    ensures elems <= ElementAt(elems, elemSize, k) - SIZEOF_MEMBLOCK
    ensures ElementAt(elems, elemSize, k) + elemSize <= elems + AllocSize(elemSize, perBlock)
  {
    Strides(k, perBlock + 1, Stride(elemSize));
  }

  /** And no two overlap. */
  lemma ElementsApart(elems: nat, elemSize: nat, j: nat, k: nat)
    requires j < k
    ensures ElementAt(elems, elemSize, j) + elemSize <= ElementAt(elems, elemSize, k) - SIZEOF_MEMBLOCK
  {
    Strides(j, k, Stride(elemSize));
  }

  /** In a block that is aligned, the elements are too. */
  lemma ElementsAligned(elems: nat, elemSize: nat, k: nat)
    requires elems % SIZEOF_PTR == 0
    ensures ElementAt(elems, Padded(elemSize), k) % SIZEOF_PTR == 0
  {
    var q := Stride(Padded(elemSize)) / SIZEOF_PTR;
    assert Stride(Padded(elemSize)) == q * SIZEOF_PTR;
    assert k * (q * SIZEOF_PTR) == (k * q) * SIZEOF_PTR;
  }

  // ----- blocks

  /** An element: its header, with the list node in it, and the address the caller gets. */
  class MemBlock {
    const block: Block
    const addr: nat
    const self: Node<MemBlock>

    constructor (block: Block, addr: nat)
      ensures this.block == block && this.addr == addr && fresh(self)
    {
      this.block, this.addr := block, addr;
      self := new Node();
    }
  }

  type Elements = seq<MemBlock>

  /** The list nodes are those of the elements, and point to them. */
  ghost predicate Carries(nodes: seq<Node<MemBlock>>, ms: Elements)
    reads SetOf(nodes)`data
  {
    |nodes| == |ms| && forall i :: 0 <= i < |nodes| ==> nodes[i] == ms[i].self && nodes[i].data == Some(ms[i])
  }

  lemma CarriesCut(nodes: seq<Node<MemBlock>>, ms: Elements, m: MemBlock)
    requires Carries(nodes, ms) && m in ms
    ensures m.self in nodes && IndexOf(nodes, m.self) == IndexOf(ms, m)
    ensures Carries(Cut(nodes, IndexOf(nodes, m.self)), Cut(ms, IndexOf(ms, m)))
  {
    var k := IndexOf(ms, m);
    forall j | 0 <= j < k ensures nodes[j] != m.self {
      assert ms[..k][j] == ms[j];
    }
    IndexIs(nodes, m.self, k);
  }

  lemma IndexIs<T>(s: seq<T>, x: T, k: nat)
    requires k < |s| && s[k] == x && forall j :: 0 <= j < k ==> s[j] != x
    ensures x in s && IndexOf(s, x) == k
  {}

  lemma CarriesMore(nodes: seq<Node<MemBlock>>, ms: Elements, m: MemBlock)
    requires Carries(nodes, ms) && m.self.data == Some(m)
    ensures Carries([m.self] + nodes, [m] + ms)
  {}

  lemma CarriedApart(nodes: seq<Node<MemBlock>>, ms: Elements, nodes': seq<Node<MemBlock>>, ms': Elements)
    requires Carries(nodes, ms) && Carries(nodes', ms') && forall m :: m in ms ==> m !in ms'
    ensures SetOf(nodes) !! SetOf(nodes')
  {
    forall n | n in nodes ensures n !in nodes' {
      var i :| 0 <= i < |nodes| && nodes[i] == n;
      assert ms[i] in ms;
      forall j | 0 <= j < |nodes'| ensures nodes'[j] != n { assert ms'[j] in ms'; }
    }
  }

  /** A block. Each of its elements is in its free list or in its used list. */
  class Block {
    var next: Block?
    const free: DList<MemBlock>
    const used: DList<MemBlock>
    const elems: nat
    const elemSize: nat
    const perBlock: nat
    ghost var freeList: Elements     // what the lists hold
    ghost var usedList: Elements
    ghost var elements: Elements     // all elements, in the order of their addresses

    /** Each of the elements is in one of the two lists. */
    ghost predicate Valid()
      reads `freeList, `usedList, `elements
    {
      && NoDup(freeList + usedList)
      && |freeList| + |usedList| == perBlock == |elements|
      && (forall m :: m in freeList + usedList ==> m in elements)
      && (forall k :: 0 <= k < perBlock ==> ElementOk(elements[k], k) && elements[k] in freeList + usedList)
    }

    ghost predicate ElementOk(m: MemBlock, k: nat) {
      m.block == this && m.addr == ElementAt(elems, elemSize, k)
    }

    ghost function ListNodes(): set<Node<MemBlock>>
      reads free, used
    {
      SetOf(free.nodes) + SetOf(used.nodes)
    }

    /** The lists are well linked. */
    ghost predicate Linked()
      reads `freeList, `usedList, free, used
      reads ListNodes()
    {
      && free != used && free.Valid() && used.Valid()
      && Carries(free.nodes, freeList) && Carries(used.nodes, usedList)
    }

    /** blockheap_block_new, as far as the new block goes. */
    constructor (elems: nat, elemSize: nat, perBlock: nat, next: Block?)
      ensures Valid() && Linked() && this.next == next && usedList == [] && fresh(SetOf(freeList))
      ensures fresh(free) && fresh(used) && fresh(ListNodes())
      ensures this.elems == elems && this.elemSize == elemSize && this.perBlock == perBlock
    {
      var f := new DList<MemBlock>();
      var u := new DList<MemBlock>();
      this.elems, this.elemSize, this.perBlock, this.next, free, used := elems, elemSize, perBlock, next, f, u;
      freeList, usedList, elements := [], [], [];
      new;
      assert Linked() && Growing(0);
      hide DList.Valid, Carries, Linked, Growing;
      for i := 0 to perBlock
        invariant this.next == next && usedList == [] && Growing(i)
        invariant Linked() && fresh(SetOf(freeList)) && fresh(SetOf(free.nodes)) && used.nodes == []
      {
        AddElement(ElementAt(elems, elemSize, i), i);
      }
      Grown();
    }

    /** The first i elements are there, and free. */
    ghost predicate Growing(i: nat)
      reads `freeList, `elements
    {
      && |freeList| == |elements| == i && NoDup(freeList)
      && (forall m :: m in freeList ==> m in elements)
      && (forall k :: 0 <= k < i ==> ElementOk(elements[k], k) && elements[k] in freeList)
    }

    lemma Grown()
      requires Growing(perBlock) && usedList == []
      ensures Valid()
    {
      assert freeList + usedList == freeList;
    }

    /** dlink_add of a new element to the free ones. */
    method AddElement(addr: nat, ghost i: nat)
      requires Linked() && used.nodes == [] && Growing(i) && addr == ElementAt(elems, elemSize, i)
      modifies `freeList, `elements, free, SetOf(free.nodes)`prev
      ensures Linked() && Growing(i + 1)
      ensures fresh(SetOf(freeList) - old(SetOf(freeList))) && fresh(SetOf(free.nodes) - old(SetOf(free.nodes)))
    {
      var newblk := new MemBlock(this, addr);
      free.Add(Some(newblk), newblk.self);
      freeList := [newblk] + freeList;
      elements := elements + [newblk];
    }

    lemma Disjoint()
      requires Valid() && Linked()
      ensures SetOf(free.nodes) !! SetOf(used.nodes)
    {
      Parts(freeList, usedList);
      CarriedApart(free.nodes, freeList, used.nodes, usedList);
    }

    lemma FirstFree()
      requires Valid() && Linked() && freeList != []
      ensures free.head != null && free.head.data == Some(freeList[0]) && SetOf(free.nodes) !! SetOf(used.nodes)
      ensures freeList[0] in elements && freeList[0] !in usedList
      ensures Cut(freeList, IndexOf(freeList, freeList[0])) == freeList[1..]
    {
      Disjoint();
      MoveFirst(freeList, usedList);
      assert freeList[0] in freeList + usedList;
    }

    /** dlink_move of an element. */
    static method Shift(m: MemBlock, from: DList<MemBlock>, to: DList<MemBlock>, ghost ms: Elements,
                        ghost others: Elements)
      requires from != to && from.Valid() && to.Valid() && SetOf(from.nodes) !! SetOf(to.nodes)
      requires Carries(from.nodes, ms) && Carries(to.nodes, others) && m in ms
      modifies from, to, SetOf(from.nodes)`next, SetOf(from.nodes)`prev, SetOf(to.nodes)`prev
      ensures from.Valid() && to.Valid()
      ensures Carries(from.nodes, Cut(ms, IndexOf(ms, m))) && Carries(to.nodes, [m] + others)
      ensures SetOf(from.nodes) + SetOf(to.nodes) == old(SetOf(from.nodes) + SetOf(to.nodes))
    {
      CarriesMove(from.nodes, ms, to.nodes, others, m);
      hide DList.Valid, Carries, IndexOf, Cut;
      DList.Move(m.self, from, to);
    }

    /** dlink_move of the first free element to the used ones. */
    method Take() returns (m: MemBlock)
      requires Valid() && Linked() && freeList != []
      modifies `freeList, `usedList, free, used
      modifies ListNodes()`next, ListNodes()`prev
      ensures Valid() && Linked() && m in elements && m !in old(usedList)
      ensures freeList == old(freeList)[1..] && usedList == [m] + old(usedList)
      ensures ListNodes() == old(ListNodes())
    {
      hide Block.Valid, DList.Valid, Carries, IndexOf, Cut, NoDup;
      FirstFree();
      m := free.head.data.value;
      Shift(m, free, used, freeList, usedList);
      ToUsed(m);
    }

    method ToUsed(ghost m: MemBlock)
      requires Valid() && freeList != [] && m == freeList[0]
      modifies `freeList, `usedList
      ensures Valid() && freeList == old(freeList)[1..] && usedList == [m] + old(usedList)
    {
      MoveFirst(freeList, usedList);
      hide NoDup;
      freeList, usedList := freeList[1..], [m] + usedList;
    }

    /** dlink_move of a used element to the front of the free ones. */
    method PutBack(m: MemBlock)
      requires Valid() && Linked() && m in usedList
      modifies `freeList, `usedList, free, used
      modifies ListNodes()`next, ListNodes()`prev
      ensures Valid() && Linked() && freeList == [m] + old(freeList) && usedList == Without(old(usedList), m)
      ensures forall x :: x in usedList <==> x in old(usedList) && x != m
      ensures ListNodes() == old(ListNodes())
    {
      hide Block.Valid, DList.Valid, Carries, IndexOf, Cut, NoDup;
      Disjoint();
      Shift(m, used, free, usedList, freeList);
      ToFree(m);
    }

    method ToFree(ghost m: MemBlock)
      requires Valid() && m in usedList
      modifies `freeList, `usedList
      ensures Valid() && freeList == [m] + old(freeList) && usedList == Without(old(usedList), m)
      ensures forall x :: x in usedList <==> x in old(usedList) && x != m
    {
      MoveBack(freeList, usedList, m);
      hide NoDup;
      freeList, usedList := [m] + freeList, Without(usedList, m);
    }
  }

  lemma CarriesMove(nodes: seq<Node<MemBlock>>, ms: Elements, to: seq<Node<MemBlock>>, others: Elements, m: MemBlock)
    requires Carries(nodes, ms) && Carries(to, others) && m in ms
    ensures m.self in nodes
    ensures var rest, more := Cut(nodes, IndexOf(nodes, m.self)), [m.self] + to;
            && Carries(rest, Cut(ms, IndexOf(ms, m))) && Carries(more, [m] + others)
            && SetOf(rest) + SetOf(more) == SetOf(nodes) + SetOf(to)
  {
    CarriesCut(nodes, ms, m);
    CarriesMore(to, others, m);
    CutTells(nodes, IndexOf(nodes, m.self));
    assert SetOf([m.self] + to) == {m.self} + SetOf(to);
  }

  lemma CutTells<T>(s: seq<T>, k: nat)
    requires k < |s|
    ensures SetOf(s) == SetOf(Cut(s, k)) + {s[k]}
  {
    assert s == s[..k] + [s[k]] + s[k + 1..];
    assert forall x :: x in s ==> x in Cut(s, k) || x == s[k];
    assert forall x :: x in Cut(s, k) ==> x in s;
  }

  /** The sequence without the first m, as dlink_move leaves it. */
  ghost function Without(s: Elements, m: MemBlock): Elements
    requires m in s
  {
    Cut(s, IndexOf(s, m))
  }

  lemma Parts(s: Elements, u: Elements)
    ensures NoDup(s + u) <==> NoDup(s) && NoDup(u) && forall m :: m in s ==> m !in u
  {
    var all := s + u;
    assert (forall i :: 0 <= i < |s| ==> all[i] == s[i]) && forall i :: 0 <= i < |u| ==> all[|s| + i] == u[i];
    if NoDup(all) {
      forall i, j | 0 <= i < j < |u| ensures u[i] != u[j] { assert all[|s| + i] != all[|s| + j]; }
      forall m | m in s ensures m !in u {
        var i :| 0 <= i < |s| && s[i] == m;
        forall j | 0 <= j < |u| ensures u[j] != m { assert all[i] != all[|s| + j]; }
      }
    }
    if NoDup(s) && NoDup(u) && forall m :: m in s ==> m !in u {
      forall i, j | 0 <= i < j < |all| ensures all[i] != all[j] {
        assert i < |s| ==> all[i] in s;
        assert j >= |s| ==> all[j] == u[j - |s|];
        assert i >= |s| ==> all[i] == u[i - |s|];
      }
    }
  }

  lemma MoveFirst(s: Elements, u: Elements)
    requires NoDup(s + u) && s != []
    ensures var s', u' := s[1..], [s[0]] + u;
            s[0] !in u && NoDup(s' + u') && (forall m :: m in s + u <==> m in s' + u')
  {
    Parts(s, u);
    Parts([s[0]], s[1..]);
    Parts([s[0]], u);
    Parts(s[1..], [s[0]] + u);
    assert [s[0]] + s[1..] == s;
  }

  lemma MoveBack(s: Elements, u: Elements, m: MemBlock)
    requires NoDup(s + u) && m in u
    ensures var s', u' := [m] + s, Without(u, m);
            && m !in u' && NoDup(s' + u') && (forall x :: x in s + u <==> x in s' + u')
            && forall x :: x in u' <==> x in u && x != m
  {
    Parts(s, u);
    CutOne(u, m);
    Parts([m], s);
    Parts([m] + s, Without(u, m));
    var rest := Without(u, m);
    assert SetOf(rest) == SetOf(u) - {m};
    assert forall x :: x in u <==> x in SetOf(u);
    assert forall x :: x in rest <==> x in SetOf(rest);
  }

  // ----- the heap

  type Frees = map<Block, nat>       // how many free elements each block has

  ghost function Sum(bs: seq<Block>, free: Frees): nat {
    if bs == [] then 0 else (if bs[0] in free then free[bs[0]] else 0) + Sum(bs[1..], free)
  }

  lemma {:induction false} SumOther(bs: seq<Block>, free: Frees, b: Block, v: nat)
    requires b !in bs
    ensures Sum(bs, free[b := v]) == Sum(bs, free)
  {
    if bs != [] { SumOther(bs[1..], free, b, v); }
  }

  lemma {:induction false} SumUpdate(bs: seq<Block>, free: Frees, b: Block, v: nat)
    requires NoDup(bs) && b in bs && b in free
    ensures Sum(bs, free[b := v]) + free[b] == Sum(bs, free) + v
  {
    if bs[0] == b {
      SumOther(bs[1..], free, b, v);
    } else {
      SumUpdate(bs[1..], free, b, v);
    }
  }

  lemma {:induction false} SumCut(bs: seq<Block>, free: Frees, k: nat)
    requires k < |bs| && bs[k] in free
    ensures Sum(bs, free) == Sum(Cut(bs, k), free) + free[bs[k]]
  {
    if k > 0 {
      SumCut(bs[1..], free, k - 1);
      assert Cut(bs, k) == [bs[0]] + Cut(bs[1..], k - 1);
    } else {
      assert Cut(bs, 0) == bs[1..];
    }
  }

  lemma {:induction false} SumZero(bs: seq<Block>, free: Frees)
    requires forall b :: b in bs ==> b in free && free[b] == 0
    ensures Sum(bs, free) == 0
  {
    if bs != [] { SumZero(bs[1..], free); }
  }

  ghost function BlockAt(bs: seq<Block>, i: int): Block? {
    if 0 <= i < |bs| then bs[i] else null
  }

  /** The blocks that are not wholly free. */
  ghost function InUse(bs: seq<Block>, free: Frees, perBlock: nat): seq<Block> {
    if bs == [] then []
    else
      var rest := InUse(bs[..|bs| - 1], free, perBlock);
      var b := bs[|bs| - 1];
      if b in free && free[b] == perBlock then rest else rest + [b]
  }

  /** Exactly the wholly free blocks are left out, and the others keep their order. */
  lemma {:induction false} InUseIs(bs: seq<Block>, more: seq<Block>, free: Frees, perBlock: nat, b: Block)
    ensures b in InUse(bs, free, perBlock) <==> b in bs && !(b in free && free[b] == perBlock)
    ensures InUse(more + bs, free, perBlock) == InUse(more, free, perBlock) + InUse(bs, free, perBlock)
    ensures InUse([b], free, perBlock) == if b in free && free[b] == perBlock then [] else [b]
    decreases |bs|
  {
    assert [b][..0] == [];
    if bs == [] {
      assert more + bs == more;
    } else {
      var n := |bs| - 1;
      assert bs == bs[..n] + [bs[n]] && (more + bs)[..|more + bs| - 1] == more + bs[..n];
      InUseIs(bs[..n], more, free, perBlock, b);
    }
  }

  lemma InUseNext(bs: seq<Block>, j: nat, free: Frees, perBlock: nat)
    requires j < |bs|
    ensures InUse(bs[..j + 1], free, perBlock) ==
            InUse(bs[..j], free, perBlock) + if bs[j] in free && free[bs[j]] == perBlock then [] else [bs[j]]
  {
    assert bs[..j + 1][..j] == bs[..j];
  }

  /** The lists of the blocks, and the nodes of those. */
  ghost function Lists(bs: seq<Block>): set<DList<MemBlock>> {
    (set b | b in bs :: b.free) + (set b | b in bs :: b.used)
  }

  ghost function Nodes(bs: seq<Block>): set<Node<MemBlock>>
    reads Lists(bs)
  {
    set b, n | b in bs && n in b.ListNodes() :: n
  }

  ghost predicate OwnLists(bs: seq<Block>) {
    forall b, c :: b in bs && c in bs && b != c ==> {b.free, b.used} !! {c.free, c.used}
  }

  /** All lists are well linked, and no two blocks share one. */
  ghost predicate Wired(bs: seq<Block>)
    reads SetOf(bs)`freeList, SetOf(bs)`usedList, Lists(bs), Nodes(bs)
  {
    && (forall b {:trigger b.Linked()} :: b in bs ==> b.Linked())
    && OwnLists(bs)
  }

  ghost predicate Whole(bs: seq<Block>)
    reads SetOf(bs)`freeList, SetOf(bs)`usedList, SetOf(bs)`elements
  {
    forall b {:trigger b.Valid()} :: b in bs ==> b.Valid()
  }

  /** A block's elements say whose they are, so no list node belongs to two blocks. */
  lemma NodesApart(b: Block, c: Block)
    requires b.Valid() && c.Valid() && b.Linked() && c.Linked() && b != c
    ensures b.ListNodes() !! c.ListNodes()
  {
    Owned(b);
    Owned(c);
    CarriedApart(b.free.nodes, b.freeList, c.free.nodes, c.freeList);
    CarriedApart(b.free.nodes, b.freeList, c.used.nodes, c.usedList);
    CarriedApart(b.used.nodes, b.usedList, c.free.nodes, c.freeList);
    CarriedApart(b.used.nodes, b.usedList, c.used.nodes, c.usedList);
  }

  /** A block with lists of its own joins. */
  lemma WireOne(b: Block, bs: seq<Block>, lists: set<DList<MemBlock>>, nodes: set<Node<MemBlock>>)
    requires Wired(bs) && b.Linked() && Lists(bs) == lists && Nodes(bs) == nodes
    requires b.free !in lists && b.used !in lists
    ensures Wired([b] + bs) && Lists([b] + bs) == lists + {b.free, b.used} && Nodes([b] + bs) == nodes + b.ListNodes()
  {
    forall n ensures n in Nodes([b] + bs) <==> n in nodes || n in b.ListNodes() {
      assert n in b.ListNodes() ==> b in [b] + bs;
      if n in nodes { var c :| c in bs && n in c.ListNodes(); assert c in [b] + bs; }
      if n in Nodes([b] + bs) { var c :| c in [b] + bs && n in c.ListNodes(); assert c == b || c in bs; }
    }
    assert forall c :: c in [b] + bs <==> c == b || c in bs;
  }

  lemma Segments(bs: seq<Block>, was: seq<Block>, k: nat, j: nat)
    requires k < |bs| && j < |was| && bs[k..] == was[j..]
    ensures bs[k] == was[j] && bs[k + 1..] == was[j + 1..] && bs[..k + 1] == bs[..k] + [bs[k]]
    ensures |Cut(bs, k)| == |bs| - 1 && Cut(bs, k)[..k] == bs[..k] && Cut(bs, k)[k..] == bs[k + 1..]
    ensures (forall b :: b in Cut(bs, k) ==> b in bs) && (k > 0 ==> Cut(bs, k)[k - 1] == bs[k - 1])
  {
    assert bs[k] == bs[k..][0] && bs[k + 1..] == bs[k..][1..] && was[j + 1..] == was[j..][1..];
  }

  lemma CutAt(bs: seq<Block>, k: nat)
    requires NoDup(bs) && k < |bs|
    ensures var rest := Cut(bs, k);
            && |rest| == |bs| - 1
            && (forall i :: 0 <= i < |rest| ==> rest[i] == bs[if i < k then i else i + 1])
            && forall i :: 0 <= i < |rest| && rest[i] == BlockAt(bs, k - 1) ==> i == k - 1
  {}

  twostate lemma StaysLinked(c: Block)
    requires old(c.Linked()) && unchanged(c`freeList, c`usedList, c.free, c.used)
    requires forall n :: n in c.ListNodes() ==> n.next == old(n.next) && n.prev == old(n.prev) && n.data == old(n.data)
    ensures c.Linked()
  {}

  /** What is not about lists does not matter for them. */
  twostate lemma StaysWired(bs: seq<Block>)
    requires old(Wired(bs))
    requires forall c :: c in bs ==> unchanged(c`freeList, c`usedList, c.free, c.used)
    requires forall n :: n in old(Nodes(bs)) ==> n.next == old(n.next) && n.prev == old(n.prev) && n.data == old(n.data)
    ensures Wired(bs) && Nodes(bs) == old(Nodes(bs))
  {
    forall c | c in bs ensures c.Linked() && c.ListNodes() == old(c.ListNodes()) {
      assert forall n :: n in c.ListNodes() ==> n in old(Nodes(bs));
      StaysLinked(c);
    }
    SameNodes(bs);
  }

  twostate lemma SameNodes(bs: seq<Block>)
    requires forall b :: b in bs ==> b.ListNodes() == old(b.ListNodes())
    ensures Nodes(bs) == old(Nodes(bs))
  {}

  lemma Owned(b: Block)
    requires b.Valid()
    ensures (forall m :: m in b.freeList ==> m.block == b) && forall m :: m in b.usedList ==> m.block == b
  {
    assert forall m :: m in b.freeList || m in b.usedList ==> m in b.freeList + b.usedList;
  }

  /** Taking out the wholly free blocks keeps the first block first, just when it is not one of them. */
  lemma {:induction false} FirstInUse(bs: seq<Block>, free: Frees, perBlock: nat)
    requires bs != [] && NoDup(bs)
    ensures var r := InUse(bs, free, perBlock);
            && (forall b :: b in r ==> b in bs && !(b in free && free[b] == perBlock))
            && (bs[0] in free && free[bs[0]] == perBlock <==> BlockAt(r, 0) != bs[0])
    decreases |bs|
  {
    var front := bs[..|bs| - 1];
    if front == [] {
      assert InUse(front, free, perBlock) == [];
    } else {
      assert front[0] == bs[0];
      FirstInUse(front, free, perBlock);
    }
  }

  class BlockHeap {
    const elemSize: nat
    const elemsPerBlock: nat
    var blocksAllocated: nat
    var freeElems: nat
    var base: Block?
    ghost var blocks: seq<Block>
    ghost var free: Frees
    ghost var used: set<MemBlock>         // what callers have and have not returned

    ghost predicate Chained(bs: seq<Block>)
      reads `base, SetOf(bs)`next
    {
      && NoDup(bs)
      && base == BlockAt(bs, 0)
      && forall i {:trigger bs[i]} :: 0 <= i < |bs| ==> bs[i].next == BlockAt(bs, i + 1)
    }

    /** Block b is whole, has so many free elements, and its used ones are those that callers have. */
    ghost predicate BlockOk(b: Block, free: Frees, used: set<MemBlock>)
      reads b`freeList, b`usedList, b`elements
    {
      && b.Valid() && b.perBlock == elemsPerBlock && b.elemSize == elemSize
      && b in free && free[b] == |b.freeList|
      && forall m :: m in b.elements ==> (m in used <==> m in b.usedList)
    }

    ghost predicate AllOk(bs: seq<Block>, free: Frees, used: set<MemBlock>)
      reads SetOf(bs)`freeList, SetOf(bs)`usedList, SetOf(bs)`elements
    {
      && (forall b {:trigger BlockOk(b, free, used)} :: b in bs ==> BlockOk(b, free, used))
      && (forall m :: m in used ==> m.block in bs && m in m.block.elements)
    }

    ghost predicate Valid()
      reads this, SetOf(blocks)`next, SetOf(blocks)`freeList, SetOf(blocks)`usedList, SetOf(blocks)`elements
    {
      && elemsPerBlock > 0
      && Chained(blocks)
      && AllOk(blocks, free, used)
      && blocksAllocated == |blocks| && freeElems == Sum(blocks, free)
    }

    constructor (size: nat, perBlock: nat)
      requires perBlock > 0
      ensures Valid() && Wired(blocks) && elemSize == Padded(size) && elemsPerBlock == perBlock && used == {} &&
              blocks == []
      ensures Lists(blocks) == {} && Nodes(blocks) == {} && freeElems == 0
    {
      elemSize, elemsPerBlock := Padded(size), perBlock;
      blocksAllocated, freeElems, base := 0, 0, null;
      blocks, free, used := [], map[], {};
    }

    /** blockheap_block_new; elems is the memory it gets, or 0 if there is none. */
    method NewBlock(elems: nat) returns (failed: bool)
      requires Valid() && Wired(blocks)
      modifies `blocksAllocated, `freeElems, `base, `blocks, `free
      ensures Valid() && Wired(blocks) && failed == (elems == 0)
      ensures if failed then blocks == old(blocks) && freeElems == old(freeElems) && Nodes(blocks) == old(Nodes(blocks))
              else |blocks| > 0 && blocks[1..] == old(blocks) && fresh(blocks[0]) && blocks[0].elems == elems
                   && fresh(Lists(blocks) - old(Lists(blocks))) && fresh(Nodes(blocks) - old(Nodes(blocks)))
                   && freeElems == old(freeElems) + elemsPerBlock
    {
      hide Block.Valid, Block.Linked, OwnLists;
      if elems == 0 { return true; }
      ghost var lists, nodes := Lists(blocks), Nodes(blocks);
      var b := new Block(elems, elemSize, elemsPerBlock, base);
      failed := false;
      forall c | c in old(blocks) ensures c.Linked() { StaysLinked(c); }
      forall c | c in blocks ensures BlockOk(c, free, used) { assert old(BlockOk(c, free, used)); }
      assert Wired(blocks) && Valid();
      hide Wired, AllOk, Chained, Lists, Nodes;
      WireOne(b, blocks, lists, nodes);
      Link(b);
    }

    method Link(b: Block)
      requires Valid() && b !in blocks && b.next == base && b.Valid() && b.usedList == []
      requires b.perBlock == elemsPerBlock && b.elemSize == elemSize && Wired([b] + blocks)
      modifies `blocksAllocated, `freeElems, `base, `blocks, `free
      ensures Wired(blocks) && Lists(blocks) == old(Lists([b] + blocks)) && Nodes(blocks) == old(Nodes([b] + blocks))
      ensures Valid() && blocks == [b] + old(blocks) && freeElems == old(freeElems) + elemsPerBlock
    {
      hide AllOk, Wired, Lists, Nodes, Block.Valid;
      SumOther(blocks, free, b, elemsPerBlock);
      AddBlock(b);
      SetHead(b, [b] + blocks, free[b := elemsPerBlock]);
    }

    method SetHead(b: Block, ghost more: seq<Block>, ghost free': Frees)
      requires AllOk(more, free', used) && Wired(more)
      modifies `blocksAllocated, `freeElems, `base, `blocks, `free
      ensures blocksAllocated == old(blocksAllocated) + 1 && freeElems == old(freeElems) + elemsPerBlock
      ensures base == b && blocks == more && free == free'
      ensures AllOk(blocks, free, used) && Wired(blocks) && Nodes(blocks) == old(Nodes(more))
    {
      hide Wired;
      blocksAllocated := blocksAllocated + 1;
      freeElems := freeElems + elemsPerBlock;
      base := b;
      blocks, free := more, free';
      forall c | c in more ensures BlockOk(c, free', used) { assert old(BlockOk(c, free', used)); }
      StaysWired(more);
    }

    lemma AddBlock(b: Block)
      requires AllOk(blocks, free, used) && b !in blocks && b.Valid() && b.usedList == []
      requires b.perBlock == elemsPerBlock && b.elemSize == elemSize
      ensures AllOk([b] + blocks, free[b := elemsPerBlock], used)
    {
      forall c | c in [b] + blocks ensures BlockOk(c, free[b := elemsPerBlock], used) {
        assert c != b ==> BlockOk(c, free, used);
        assert forall m :: m in used ==> m.block != b;
      }
    }

    lemma OthersApart(b: Block)
      requires Whole(blocks) && Wired(blocks) && b in blocks
      ensures forall c :: c in blocks && c != b ==>
                {c.free, c.used} !! {b.free, b.used} && c.ListNodes() !! b.ListNodes()
    {
      forall c | c in blocks && c != b ensures c.ListNodes() !! b.ListNodes() { NodesApart(c, b); }
    }

    /** Block.Take, which leaves the lists of the other blocks alone. */
    method TakeIn(b: Block) returns (m: MemBlock)
      requires Whole(blocks) && Wired(blocks) && b in blocks && b.freeList != []
      modifies b`freeList, b`usedList, b.free, b.used, b.ListNodes()`next, b.ListNodes()`prev
      ensures Wired(blocks) && Nodes(blocks) == old(Nodes(blocks))
      ensures b.Valid() && m in b.elements && m !in old(b.usedList)
      ensures b.freeList == old(b.freeList)[1..] && b.usedList == [m] + old(b.usedList)
    {
      hide Block.Valid, Block.Linked, Nodes, Lists, OwnLists;
      OthersApart(b);
      assert b.Valid() && b.Linked();
      label before:
      m := b.Take();
      SameNodes@before(blocks);
    }

    method PutBackIn(b: Block, m: MemBlock)
      requires Whole(blocks) && Wired(blocks) && b in blocks && m in b.usedList
      modifies b`freeList, b`usedList, b.free, b.used, b.ListNodes()`next, b.ListNodes()`prev
      ensures Wired(blocks) && Nodes(blocks) == old(Nodes(blocks))
      ensures b.Valid() && b.freeList == [m] + old(b.freeList)
      ensures forall x :: x in b.usedList <==> x in old(b.usedList) && x != m
    {
      hide Block.Valid, Block.Linked, Nodes, Lists, OwnLists;
      OthersApart(b);
      assert b.Valid() && b.Linked();
      label before:
      b.PutBack(m);
      SameNodes@before(blocks);
    }

    lemma AllWhole()
      requires AllOk(blocks, free, used)
      ensures Whole(blocks)
    {
      forall b | b in blocks ensures b.Valid() { assert BlockOk(b, free, used); }
    }

    /** What is known before an element of block b moves from one list to the other. */
    lemma CanMove(b: Block)
      requires AllOk(blocks, free, used) && b in blocks
      ensures forall c :: c in blocks ==> BlockOk(c, free, used)
      ensures Whole(blocks) && forall m :: m in used ==> m.block in blocks && m in m.block.elements
    {
      AllWhole();
    }

    lemma CanCount(b: Block, v: nat)
      requires AllOk(blocks, free, used) && NoDup(blocks) && b in blocks
      ensures b in free && Sum(blocks, free[b := v]) + |b.freeList| == Sum(blocks, free) + v
    {
      assert BlockOk(b, free, used);
      SumUpdate(blocks, free, b, v);
    }

    lemma Gather(free': Frees, used': set<MemBlock>)
      requires forall c :: c in blocks ==> BlockOk(c, free', used')
      requires forall m :: m in used' ==> m.block in blocks && m in m.block.elements
      ensures AllOk(blocks, free', used')
    {}

    lemma Theirs(c: Block)
      requires c.Valid()
      ensures forall m :: m in c.elements ==> m.block == c
    {}

    method TakeOne(b: Block) returns (m: MemBlock)
      requires AllOk(blocks, free, used) && Wired(blocks) && b in blocks && b.freeList != [] && b in free
      modifies b`freeList, b`usedList, b.free, b.used, b.ListNodes()`next, b.ListNodes()`prev
      ensures Wired(blocks) && m !in used
      ensures Nodes(blocks) == old(Nodes(blocks))
      ensures AllOk(blocks, free[b := |b.freeList|], used + {m}) && |b.freeList| == old(|b.freeList|) - 1
    {
      hide AllOk, Wired, Whole;
      CanMove(b);
      label before:
      m := TakeIn(b);
      ghost var free', used' := free[b := |b.freeList|], used + {m};
      Theirs(b);
      forall c | c in blocks ensures BlockOk(c, free', used') {
        assert old@before(BlockOk(c, free, used));
        if c != b { Theirs(c); }
      }
      Gather(free', used');
    }

    /** The first free element of a block for the caller. */
    method TakeFrom(b: Block) returns (m: MemBlock)
      requires Valid() && Wired(blocks) && b in blocks && b.freeList != []
      modifies `freeElems, `free, `used, b`freeList, b`usedList, b.free, b.used, b.ListNodes()`next, b.ListNodes()`prev
      ensures Wired(blocks) && Nodes(blocks) == old(Nodes(blocks))
      ensures Valid() && blocks == old(blocks) && m !in old(used) && used == old(used) + {m} &&
              freeElems == old(freeElems) - 1
    {
      hide AllOk, Wired, Sum, NoDup;
      CanCount(b, |b.freeList| - 1);
      m := TakeOne(b);
      Count(-1, free[b := |b.freeList|], used + {m});
    }

    method PutOne(b: Block, m: MemBlock)
      requires AllOk(blocks, free, used) && Wired(blocks) && m in used && b == m.block && b in free
      modifies b`freeList, b`usedList, b.free, b.used, b.ListNodes()`next, b.ListNodes()`prev
      ensures Wired(blocks)
      ensures Nodes(blocks) == old(Nodes(blocks))
      ensures AllOk(blocks, free[b := |b.freeList|], used - {m}) && |b.freeList| == old(|b.freeList|) + 1
    {
      hide AllOk, Wired, Whole;
      IsOwned(m);
      CanMove(b);
      label before:
      PutBackIn(b, m);
      ghost var free', used' := free[b := |b.freeList|], used - {m};
      Theirs(b);
      forall c | c in blocks ensures BlockOk(c, free', used') {
        assert old@before(BlockOk(c, free, used));
        if c != b { Theirs(c); }
      }
      Gather(free', used');
    }

    lemma IsOwned(m: MemBlock)
      requires AllOk(blocks, free, used) && m in used
      ensures m.block in blocks && m in m.block.elements
    {}

    /** blockheap_free. */
    method Free(m: MemBlock)
      requires Valid() && Wired(blocks) && m in used
      modifies `freeElems, `free, `used, m.block`freeList, m.block`usedList, m.block.free, m.block.used
      modifies m.block.ListNodes()`next, m.block.ListNodes()`prev
      ensures Wired(blocks) && Nodes(blocks) == old(Nodes(blocks))
      ensures Valid() && blocks == old(blocks) && used == old(used) - {m} && freeElems == old(freeElems) + 1
    {
      hide AllOk, Wired, Sum, NoDup;
      var block := m.block;
      IsOwned(m);
      CanCount(block, |block.freeList| + 1);
      PutOne(block, m);
      Count(1, free[block := |block.freeList|], used - {m});
    }

    method Count(d: int, ghost free': Frees, ghost used': set<MemBlock>)
      requires freeElems + d >= 0 && AllOk(blocks, free', used') && Wired(blocks)
      modifies `freeElems, `free, `used
      ensures freeElems == old(freeElems) + d && free == free' && used == used'
      ensures AllOk(blocks, free, used) && Wired(blocks) && Nodes(blocks) == old(Nodes(blocks))
    {
      freeElems := freeElems + d;
      free, used := free', used';
      StaysWired(blocks);
      hide Wired;
      forall c | c in blocks ensures BlockOk(c, free, used) { assert old(BlockOk(c, free', used')); }
    }

    /** blockheap_alloc; elems is the memory a new block gets, or 0 if there is none. The garbage collection it tries
        when it gets none finds nothing, as no element is free then. */
    method Alloc(elems: nat) returns (m: MemBlock?)
      requires Valid() && Wired(blocks)
      modifies this, SetOf(blocks)`freeList, SetOf(blocks)`usedList, SetOf(blocks)`next
      modifies Lists(blocks), Nodes(blocks)`next, Nodes(blocks)`prev
      ensures Valid() && Wired(blocks)
      ensures if old(freeElems) == 0 && elems != 0 then |blocks| > 0 && blocks[1..] == old(blocks) && fresh(blocks[0])
              else blocks == old(blocks)
      ensures fresh(Lists(blocks) - old(Lists(blocks))) && fresh(Nodes(blocks) - old(Nodes(blocks)))
      ensures m == null <==> old(freeElems) == 0 && elems == 0
      ensures m != null ==> m !in old(used) && used == old(used) + {m}
      ensures m == null ==> used == old(used)
      ensures freeElems == old(freeElems) + (if old(freeElems) == 0 && elems != 0 then elemsPerBlock else 0)
                           - (if m != null then 1 else 0)
    {
      hide AllOk, Wired, NoDup, Sum, Lists, Nodes, Chained, InUse;
      if freeElems == 0 {
        var failed := NewBlock(elems);
        if failed { GarbageCollect(); }
      }
      assert forall b :: b in blocks ==> b in old(blocks) || fresh(b);
      m := Search();
    }

    /** The walk of blockheap_alloc, and what it does where it stops. */
    method Search() returns (m: MemBlock?)
      requires Valid() && Wired(blocks)
      modifies `freeElems, `free, `used, SetOf(blocks)`freeList, SetOf(blocks)`usedList
      modifies Lists(blocks), Nodes(blocks)`next, Nodes(blocks)`prev
      ensures Valid() && Wired(blocks) && blocks == old(blocks) && Nodes(blocks) == old(Nodes(blocks))
      ensures m == null <==> old(freeElems) == 0
      ensures if m == null then used == old(used) && freeElems == old(freeElems)
              else m !in old(used) && used == old(used) + {m} && freeElems == old(freeElems) - 1
    {
      hide AllOk, Wired, NoDup, Sum, Lists, Nodes, Chained;
      var walker := FirstFreeBlock();
      if walker == null { return null; }
      Length(walker);
      m := TakeFrom(walker);
    }

    method FirstFreeBlock() returns (walker: Block?)
      requires Valid() && Wired(blocks)
      ensures Valid() && Wired(blocks) && Nodes(blocks) == old(Nodes(blocks))
      ensures walker == null <==> freeElems == 0
      ensures walker != null ==> walker in blocks && walker.freeList != []
    {
      hide AllOk, Wired, NoDup, Sum, Nodes;
      walker := base;
      ghost var k := 0;
      while walker != null
        invariant Valid() && Wired(blocks) && Nodes(blocks) == old(Nodes(blocks))
        invariant k <= |blocks| && walker == BlockAt(blocks, k)
        invariant forall i :: 0 <= i < k ==> blocks[i].freeList == []
        decreases |blocks| - k
      {
        assert walker == blocks[k];
        Length(walker);
        if walker.free.length > 0 {
          AnyFree(walker);
          return;
        }
        walker := walker.next;
        k := k + 1;
      }
      NoneFree();
    }

    lemma Within(b: Block)
      requires b in blocks
      ensures b.free in Lists(blocks) && b.used in Lists(blocks) && b.ListNodes() <= Nodes(blocks)
    {
      assert forall n :: n in b.ListNodes() ==> n in Nodes(blocks);
    }

    lemma Length(b: Block)
      requires Wired(blocks) && b in blocks
      ensures b.free.length == |b.freeList| && b.free in Lists(blocks) && b.used in Lists(blocks) &&
              b.ListNodes() <= Nodes(blocks)
    {
      assert b.Linked();
      Within(b);
    }

    lemma AnyFree(b: Block)
      requires Valid() && b in blocks && b.freeList != []
      ensures freeElems > 0
    {
      assert BlockOk(b, free, used);
      SumUpdate(blocks, free, b, 0);
    }

    lemma NoneFree()
      requires Valid() && forall b :: b in blocks ==> b.freeList == []
      ensures freeElems == 0
    {
      forall b | b in blocks ensures b in free && free[b] == 0 { assert BlockOk(b, free, used); }
      SumZero(blocks, free);
    }

    /** blockheap_garbagecollect: if it does not give up at once, it removes the wholly free blocks, the first
        included. */
    method GarbageCollect()
      requires Valid() && Wired(blocks)
      modifies `blocksAllocated, `freeElems, `base, `blocks, SetOf(blocks)`next
      ensures Valid() && Wired(blocks)
      ensures var early := old(freeElems) < elemsPerBlock || old(blocksAllocated) == 1;
              blocks == if early then old(blocks) else InUse(old(blocks), old(free), elemsPerBlock)
      ensures old(base) != null ==>
                (base == old(base) <==>
                 old(freeElems) < elemsPerBlock || old(blocksAllocated) == 1 || old(base.free.length) != elemsPerBlock)
      ensures old(freeElems) < elemsPerBlock || old(blocksAllocated) == 1 ==>
                freeElems == old(freeElems) && Nodes(blocks) == old(Nodes(blocks))
    {
      if freeElems < elemsPerBlock || blocksAllocated == 1 { return; }
      if base != null { RootCounts(); }
      hide InUse, Wired, AllOk, Sum, Nodes, NoDup;
      Collect();
    }

    lemma RootCounts()
      requires Chained(blocks) && AllOk(blocks, free, used) && Wired(blocks) && base != null
      ensures BlockAt(InUse(blocks, free, elemsPerBlock), 0) == base <==> base.free.length != elemsPerBlock
    {
      FreeCount(base);
      FirstInUse(blocks, free, elemsPerBlock);
    }

    /** The loop of blockheap_garbagecollect. */
    method Collect()
      requires Valid() && Wired(blocks)
      modifies `blocksAllocated, `freeElems, `base, `blocks, SetOf(blocks)`next
      ensures Valid() && Wired(blocks) && blocks == InUse(old(blocks), old(free), elemsPerBlock)
    {
      hide AllOk, Wired, NoDup, Sum;
      var last: Block?, walker := null, base;
      ghost var k: nat, j: nat := 0, 0;
      assert blocks[0..] == old(blocks)[0..];
      while walker != null
        invariant Valid() && Wired(blocks) && k <= |blocks| && j <= |old(blocks)|
        invariant walker == BlockAt(blocks, k) && last == BlockAt(blocks, k - 1)
        invariant blocks[..k] == InUse(old(blocks)[..j], old(free), elemsPerBlock) && blocks[k..] == old(blocks)[j..]
        invariant forall b :: b in blocks ==> b in old(blocks)
        decreases |old(blocks)| - j
      {
        InUseNext(old(blocks), j, free, elemsPerBlock);
        last, walker, k := CollectOne(last, walker, k, old(blocks), j);
        j := j + 1;
      }
      assert blocks[..k] == blocks && old(blocks)[..j] == old(blocks);
    }

    /** One round: the blocks before walker are kept, those behind it are still to be looked at. */
    method CollectOne(last: Block?, walker: Block, ghost k: nat, ghost was: seq<Block>, ghost j: nat)
        returns (last': Block?, walker': Block?, ghost k': nat)
      requires Valid() && Wired(blocks) && k < |blocks| && walker == blocks[k] && last == BlockAt(blocks, k - 1)
      requires j < |was| && blocks[k..] == was[j..]
      modifies `blocksAllocated, `freeElems, `base, `blocks, SetOf(blocks)`next
      ensures Valid() && Wired(blocks)
      ensures k' <= |blocks| && walker' == BlockAt(blocks, k') && last' == BlockAt(blocks, k' - 1)
      ensures blocks[..k'] ==
              old(blocks)[..k] + if walker in free && free[walker] == elemsPerBlock then [] else [walker]
      ensures blocks[k'..] == was[j + 1..] && walker == was[j]
      ensures forall b :: b in blocks ==> b in old(blocks)
    {
      hide AllOk, Wired, NoDup, Cut, Sum;
      FreeCount(walker);
      Segments(blocks, was, k, j);
      last', walker', k' := last, walker, k;
      if walker.free.length == elemsPerBlock {
        RemoveBlock(last, walker, k);
        assert last != null ==> last == blocks[k - 1];
        walker' := if last != null then last.next else base;
      } else {
        last' := walker;
        walker' := walker.next;
        k' := k + 1;
      }
    }

    lemma FreeCount(b: Block)
      requires AllOk(blocks, free, used) && Wired(blocks) && b in blocks
      ensures b in free && free[b] == |b.freeList| == b.free.length
    {
      assert BlockOk(b, free, used);
      Length(b);
    }

    /** Unlink a wholly free block. */
    method RemoveBlock(last: Block?, walker: Block, ghost k: nat)
      requires Valid() && Wired(blocks) && k < |blocks| && walker == blocks[k] && last == BlockAt(blocks, k - 1)
      requires |walker.freeList| == elemsPerBlock
      modifies `blocksAllocated, `freeElems, `base, `blocks, SetOf(blocks)`next
      ensures Valid() && Wired(blocks) && blocks == Cut(old(blocks), k)
    {
      hide AllOk, Wired, NoDup, Sum, Chained, Cut;
      IsChained();
      CutCounts(k);
      CutOk(k);
      CutWired(k);
      ghost var rest := Cut(blocks, k);
      Unchain(blocks, last, walker, k);
      Uncount(rest);
    }

    lemma IsChained()
      requires Chained(blocks)
      ensures NoDup(blocks)
    {}

    lemma CutCounts(k: nat)
      requires AllOk(blocks, free, used) && k < |blocks| && |blocks[k].freeList| == elemsPerBlock
      ensures Sum(blocks, free) == Sum(Cut(blocks, k), free) + elemsPerBlock && |Cut(blocks, k)| == |blocks| - 1
    {
      assert BlockOk(blocks[k], free, used);
      SumCut(blocks, free, k);
    }

    lemma CutWired(k: nat)
      requires Wired(blocks) && k < |blocks|
      ensures Wired(Cut(blocks, k))
    {}

    method Unchain(ghost bs: seq<Block>, last: Block?, walker: Block, ghost k: nat)
      requires Chained(bs) && k < |bs| && walker == bs[k] && last == BlockAt(bs, k - 1) && NoDup(Cut(bs, k))
      requires AllOk(Cut(bs, k), free, used) && Wired(Cut(bs, k))
      modifies `base, SetOf(bs)`next
      ensures Chained(Cut(bs, k)) && AllOk(Cut(bs, k), free, used) && Wired(Cut(bs, k))
    {
      hide Cut, Wired, NoDup;
      ghost var rest := Cut(bs, k);
      CutAt(bs, k);
      Relink(bs, rest, last, walker, k);
      forall c | c in rest ensures BlockOk(c, free, used) { assert old(BlockOk(c, free, used)); }
      StaysWired(rest);
    }

    method Relink(ghost bs: seq<Block>, ghost rest: seq<Block>, last: Block?, walker: Block, ghost k: nat)
      requires Chained(bs) && k < |bs| == |rest| + 1 && walker == bs[k] && last == BlockAt(bs, k - 1) && NoDup(rest)
      requires forall i :: 0 <= i < |rest| ==> rest[i] == bs[if i < k then i else i + 1]
      requires forall i :: 0 <= i < |rest| && rest[i] == last ==> i == k - 1
      modifies `base, SetOf(bs)`next
      ensures Chained(rest)
    {
      hide NoDup;
      if last != null {
        last.next := walker.next;
      } else {
        base := walker.next;
      }
    }

    method Uncount(ghost rest: seq<Block>)
      requires blocksAllocated > 0 && freeElems >= elemsPerBlock && Chained(rest) && AllOk(rest, free, used) &&
               Wired(rest)
      modifies `blocksAllocated, `freeElems, `blocks
      ensures blocksAllocated == old(blocksAllocated) - 1 && freeElems == old(freeElems) - elemsPerBlock &&
              blocks == rest
      ensures Chained(rest) && AllOk(rest, free, used) && Wired(rest)
    {
      hide Chained, AllOk;
      blocksAllocated := blocksAllocated - 1;
      freeElems := freeElems - elemsPerBlock;
      blocks := rest;
      StaysWired(rest);
    }

    lemma CutOk(k: nat)
      requires NoDup(blocks) && AllOk(blocks, free, used) && k < |blocks| && |blocks[k].freeList| == elemsPerBlock
      ensures AllOk(Cut(blocks, k), free, used) && NoDup(Cut(blocks, k))
      ensures forall b :: b in Cut(blocks, k) ==> b in blocks
    {
      var b := blocks[k];
      assert BlockOk(b, free, used);
      forall m | m in used ensures m.block in Cut(blocks, k) {
        assert m.block != b;
        var i :| 0 <= i < |blocks| && blocks[i] == m.block;
        assert Cut(blocks, k)[if i < k then i else i - 1] == m.block;
      }
    }
  }

  /** With one element to a block, an element's block has no other. */
  lemma OnlyElement(h: BlockHeap, m: MemBlock, n: MemBlock)
    requires h.Valid() && h.elemsPerBlock == 1 && m in h.used && n in h.used && m.block == n.block
    ensures m == n
  {
    assert h.BlockOk(m.block, h.free, h.used);
  }

  lemma NotAll(s: Elements, all: Elements, m: MemBlock)
    requires NoDup(s) && all == [m] && forall x :: x in s ==> x in all
    ensures m !in s <==> |s| == 0
  {
    if |s| > 0 { assert s[0] in s && s[0] == m; }
  }

  lemma WhollyFree(h: BlockHeap, m: MemBlock)
    requires h.Valid() && Wired(h.blocks) && h.elemsPerBlock == 1 && m.block in h.blocks && m in m.block.elements &&
             m !in h.used
    ensures m.block.free.length == 1
  {
    var b := m.block;
    assert h.BlockOk(b, h.free, h.used);
    assert b.elements == [m] && m !in b.usedList;
    assert forall x :: x in b.usedList ==> x in b.freeList + b.usedList;
    Parts(b.freeList, b.usedList);
    NotAll(b.usedList, b.elements, m);
    h.FreeCount(b);
  }

  /** A run that removes the root: two blocks of one element are allocated, and the element of the first block of the
      chain is given back. */
  method RemoveRoot() returns (h: BlockHeap, root: Block)
    ensures fresh(h) && h.Valid() && Wired(h.blocks) && h.base != root && h.base != null
  {
    hide BlockHeap.AllOk, Wired, Sum, NoDup, Lists, Nodes, InUse;
    h := new BlockHeap(8, 1);
    var a := h.Alloc(0x1000);
    h.IsOwned(a);
    ghost var s := h.blocks[0];
    var b := h.Alloc(0x2000);
    h.IsOwned(a);
    h.IsOwned(b);
    if a.block == b.block { OnlyElement(h, a, b); }
    root := h.base;
    h.Within(root);
    h.Free(b);
    WhollyFree(h, b);
    h.GarbageCollect();
    h.IsOwned(a);
  }
}
