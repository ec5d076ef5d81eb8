/** malloc and free of M2libc: two linked lists of nodes over a heap that only grows. */
module Malloc {
  import opened Wrappers
  import opened Bits

  const NODE_SIZE := 32
  const SMALLEST := 256
  const LARGEST := 0x4000_0000

  // ---- size classes -------------------------------------------------------------------------

  /** n is one of the standard block sizes. */
  predicate IsClass(n: int) {
    SMALLEST <= n <= LARGEST && Power(n)
  }

  predicate Power(n: int) {
    n == 1 || (n > 1 && n % 2 == 0 && Power(n / 2))
  }

  /** Doubling from used until size fits. */
  function ClassFrom(used: int, size: int): Option<int>
    requires used > 0
    decreases LARGEST - used
  {
    if used >= size then Some(used) else if 2 * used > LARGEST then None else ClassFrom(2 * used, size)
  }

  function ClassOf(size: int): Option<int> {
    ClassFrom(SMALLEST, size)
  }

  lemma {:induction false} TwoToThe(k: nat)
    ensures Power(Exp2(k))
    decreases k
  {
    if k > 0 {
      TwoToThe(k - 1);
    }
  }

  lemma LargestPower()
    ensures Power(LARGEST)
  {
    TwoToThe(30);
    assert Exp2(30) == LARGEST by {
      assert Exp2(5) == 32;
      assert Exp2(10) == 1024;
      assert Exp2(15) == 0x8000;
      assert Exp2(20) == 0x10_0000;
      assert Exp2(25) == 0x200_0000;
    }
  }

  lemma NoneAbove(p: int)
    requires Power(p) && p <= LARGEST < 2 * p
    ensures p == LARGEST
  {
    hide Power;
    LargestPower();
    PowerAbove(p, LARGEST);
  }

  lemma TwicePower(p: int)
    requires Power(p) && p > 0
    ensures Power(2 * p)
  {
  }

  lemma {:induction false} ClassFromFits(used: int, size: int)
    requires 0 < used <= LARGEST && Power(used)
    ensures var c := ClassFrom(used, size);
      && (c.None? <==> size > LARGEST)
      && (c.Some? ==> used <= c.value <= LARGEST && Power(c.value) && size <= c.value && (c.value > used ==> c.value < 2 * size))
    decreases LARGEST - used
  {
    hide Power;
    if used < size {
      if 2 * used > LARGEST {
        NoneAbove(used);
      } else {
        TwicePower(used);
        ClassFromFits(2 * used, size);
      }
    }
  }

  /** There is no power of two strictly between one and its double. */
  lemma {:induction false} PowerAbove(p: int, q: int)
    requires Power(p) && Power(q) && p <= q < 2 * p
    ensures p == q
    decreases p
  {
    if p > 1 {
      PowerAbove(p / 2, q / 2);
    }
  }

  /** The class of a request is a standard size, holds it, and is at most its double unless it is
      the smallest class; only requests above the largest class have none. */
  lemma ClassFits(size: int)
    ensures var c := ClassOf(size);
      && (c.None? <==> size > LARGEST)
      && (c.Some? ==> IsClass(c.value) && size <= c.value && (c.value > SMALLEST ==> c.value < 2 * size))
  {
    assert Power(SMALLEST) by { assert Power(4); assert Power(16); assert Power(64); }
    ClassFromFits(SMALLEST, size);
  }

  // ---- nodes --------------------------------------------------------------------------------

  class Node {
    /** Where the node itself lies, and the block it stands for. */
    const address: int
    const block: int
    const size: int
    var next: Node?
    var used: bool

    constructor (address: int, block: int, size: int)
      ensures this.address == address && this.block == block && this.size == size && next == null && used
    {
      this.address, this.block, this.size, next, used := address, block, size, null, true;
    }
  }

  predicate ApartRanges(a: int, m: int, b: int, n: int) {
    a + m <= b || b + n <= a
  }

  /** No byte belongs to two of the four ranges of two nodes and their blocks. */
  predicate Apart(m: Node, n: Node) {
    && ApartRanges(m.address, NODE_SIZE, n.address, NODE_SIZE) && ApartRanges(m.address, NODE_SIZE, n.block, n.size)
    && ApartRanges(m.block, m.size, n.address, NODE_SIZE) && ApartRanges(m.block, m.size, n.block, n.size)
  }

  /** A node and its block lie between two addresses. */
  predicate Inside(n: Node, low: int, high: int) {
    && low <= n.address && n.address + NODE_SIZE <= high && low <= n.block && n.block + n.size <= high
    && ApartRanges(n.address, NODE_SIZE, n.block, n.size) && IsClass(n.size)
  }

  ghost predicate Space(nodes: set<Node>, low: int, high: int) {
    && (forall n :: n in nodes ==> Inside(n, low, high))
    && forall m, n :: m in nodes && n in nodes && m != n ==> Apart(m, n)
  }

  /** More space changes nothing. */
  lemma SpaceGrows(nodes: set<Node>, low: int, high: int, more: int)
    requires Space(nodes, low, high) && high <= more
    ensures Space(nodes, low, more)
  {
  }

  /** A new node and its block fit above all others. */
  lemma SpaceTaken(nodes: set<Node>, n: Node, low: int, high: int, more: int)
    requires Space(nodes, low, high) && Inside(n, high, more) && low <= high <= more
    ensures Space(nodes + {n}, low, more)
  {
  }

  predicate Distinct(s: seq<Node>) {
    forall i, j :: 0 <= i < j < |s| ==> s[i] != s[j]
  }

  predicate Sorted(s: seq<Node>) {
    forall i, j :: 0 <= i < j < |s| ==> s[i].size <= s[j].size
  }

  /** Where _malloc_insert_block puts a free node: before the first one that is not smaller. */
  function Place(n: Node, f: seq<Node>): (k: nat)
    ensures k <= |f|
    ensures forall j :: 0 <= j < k ==> f[j].size < n.size
    ensures k < |f| ==> n.size <= f[k].size
  {
    if f == [] || n.size <= f[0].size then 0 else 1 + Place(n, f[1..])
  }

  function Inserted(n: Node, f: seq<Node>): seq<Node> {
    f[..Place(n, f)] + [n] + f[Place(n, f)..]
  }

  /** The position of the first free node that is larger than size. */
  function FirstFit(f: seq<Node>, size: int): (k: nat)
    ensures k <= |f|
    ensures forall j :: 0 <= j < k ==> f[j].size <= size
    ensures k < |f| ==> f[k].size > size
  {
    if f == [] || f[0].size > size then 0 else 1 + FirstFit(f[1..], size)
  }

  function Without(s: seq<Node>, k: nat): seq<Node>
    requires k < |s|
  {
    s[..k] + s[k + 1..]
  }

  lemma InsertedSorted(n: Node, f: seq<Node>)
    requires Sorted(f)
    ensures Sorted(Inserted(n, f)) && multiset(Inserted(n, f)) == multiset(f) + multiset{n}
  {
    assert f == f[..Place(n, f)] + f[Place(n, f)..];
  }

  /** On a sorted list first fit is best fit: among the blocks strictly larger than the class wanted
      it takes a smallest one, and it misses only when there is none. A block of exactly that class
      is never taken. */
  lemma FirstFitIsBest(f: seq<Node>, size: int)
    requires Sorted(f)
    ensures var k := FirstFit(f, size);
      && (k < |f| <==> exists n :: n in f && n.size > size)
      && (k < |f| ==> f[k].size > size && forall n :: n in f && n.size > size ==> f[k].size <= n.size)
  {
  }

  /** The list that starts at head has exactly these nodes, in this order. */
  ghost predicate Linked(head: Node?, nodes: seq<Node>)
    reads nodes
  {
    && (nodes == [] <==> head == null) && (nodes != [] ==> head == nodes[0])
    && (nodes != [] ==> nodes[|nodes| - 1].next == null)
    && forall i {:trigger nodes[i].next} :: 0 <= i < |nodes| - 1 ==> nodes[i].next == nodes[i + 1]
  }

  ghost predicate Marked(nodes: seq<Node>, used: bool)
    reads nodes
  {
    forall n :: n in nodes ==> n.used == used
  }

  /** Two lists with nothing in common that have all the nodes between them. */
  ghost predicate Members(all: set<Node>, a: seq<Node>, b: seq<Node>) {
    && (forall n :: n in a ==> n in all && n !in b)
    && (forall n :: n in b ==> n in all)
    && (forall n :: n in all ==> n in a || n in b)
  }

  /** A node moves from one list to the other. */
  lemma Moves(all: set<Node>, a: seq<Node>, b: seq<Node>, a1: seq<Node>, b1: seq<Node>, n: Node)
    requires Members(all, a, b) && n in a
    requires forall m :: m in a1 <==> m in a && m != n
    requires forall m :: m in b1 <==> m == n || m in b
    ensures Members(all, a1, b1) && Members(all, b1, a1)
  {
  }

  lemma NotBoth(all: set<Node>, a: seq<Node>, b: seq<Node>)
    requires Members(all, a, b)
    ensures forall k :: 0 <= k < |b| ==> b[k] !in a && b[k] in all
    ensures forall k :: 0 <= k < |a| ==> a[k] !in b && a[k] in all
  {
  }

  lemma MembersSwap(all: set<Node>, a: seq<Node>, b: seq<Node>)
    requires Members(all, a, b)
    ensures Members(all, b, a)
  {
  }

  class Heap {
    var allocatedList: Node?
    var freeList: Node?
    var mallocPtr: int
    var brkPtr: int
    /** The two lists, the program break that brk granted last, and the first break. */
    ghost var taken: seq<Node>
    ghost var freed: seq<Node>
    ghost var granted: int
    const start: int
    /** Every node linked so far. */
    ghost var linked: set<Node>

    /** The lists are acyclic and hold every node linked so far exactly once between them; blocks
        and nodes are pairwise disjoint inside the part of the heap that has been given out; the
        free list is sorted. */
    ghost predicate Valid()
      reads this, linked
    {
      && Shape() && Space(linked, start, mallocPtr)
      && start > 0
      && (brkPtr == 0 ==> linked == {})
      && (brkPtr != 0 ==> start <= mallocPtr <= granted && (brkPtr == -1 || brkPtr == granted))
    }

    ghost predicate Shape()
      reads this, linked
    {
      && Members(linked, taken, freed) && Distinct(taken) && Distinct(freed) && Sorted(freed)
      && Linked(allocatedList, taken) && Linked(freeList, freed) && Marked(taken, true) && Marked(freed, false)
    }

    constructor (start: int)
      requires start > 0
      ensures Valid() && taken == [] && freed == [] && this.start == start
    {
      this.start := start;
      allocatedList, freeList, mallocPtr, brkPtr := null, null, 0, 0;
      taken, freed, granted, linked := [], [], 0, {};
    }

    /** The system call: the new break is granted as asked for, or not at all. */
    method Brk(wanted: int) returns (r: int)
      modifies this`granted
      ensures (r == -1 && granted == old(granted)) || r == wanted == granted
    {
      if * {
        r := -1;
      } else {
        r := wanted;
        granted := wanted;
      }
    }

    method MallocBrk(size: int) returns (p: int)
      requires size > 0 && start > 0
      requires brkPtr != 0 ==> start <= mallocPtr <= granted && (brkPtr == -1 || brkPtr == granted)
      modifies this`mallocPtr, this`brkPtr, this`granted
      ensures brkPtr != 0 && start <= mallocPtr <= granted && (brkPtr == -1 || brkPtr == granted)
      ensures var from := if old(brkPtr) == 0 then start else old(mallocPtr);
        (p == 0 && mallocPtr == from) || (p == from && mallocPtr == from + size)
    {
      if brkPtr == 0 {
        // brk(0) tells where the break is.
        brkPtr := start;
        granted := start;
        mallocPtr := brkPtr;
      }
      if brkPtr < mallocPtr + size {
        brkPtr := Brk(mallocPtr + size);
        if brkPtr == -1 {
          return 0;
        }
      }
      p := mallocPtr;
      mallocPtr := mallocPtr + size;
    }

    /** _malloc_insert_block for a block in use. */
    method InsertUsed(n: Node)
      requires Linked(allocatedList, taken) && n !in taken
      modifies this`allocatedList, this`taken, n`next
      ensures taken == [n] + old(taken) && Linked(allocatedList, taken)
    {
      n.next := allocatedList;
      allocatedList := n;
      assert forall j :: 0 <= j < |taken| ==> taken[j] in taken && taken[j].next == old(taken[j].next);
      ghost var before := taken;
      taken := [n] + taken;
      forall i | 0 <= i < |taken| - 1
        ensures taken[i].next == taken[i + 1]
      {
        assert taken[i + 1] == before[i];
        if i > 0 {
          assert taken[i] == before[i - 1];
        }
      }
    }

    /** _malloc_insert_block for a free block. */
    method InsertFree(n: Node)
      requires Linked(freeList, freed) && Distinct(freed) && n !in freed && n.next == null
      modifies this`freeList, this`freed, freed`next, n`next
      ensures freed == Inserted(n, old(freed)) && Linked(freeList, freed)
    {
      hide Place;
      var i := freeList;
      var last: Node? := null;
      ghost var k := 0;
      while i != null
        invariant k <= |freed| && i == (if k < |freed| then freed[k] else null) && last == (if k == 0 then null else freed[k - 1])
        invariant Linked(freeList, freed) && freed == old(freed) && n.next == null && freeList == old(freeList)
        invariant forall j :: 0 <= j < k ==> freed[j].size < n.size
        decreases |freed| - k
      {
        if n.size <= i.size {
          break;
        }
        last := i;
        i := i.next;
        k := k + 1;
      }
      PlaceIs(n, freed, k);
      ghost var before := freed;
      assert forall j :: 0 <= j < |before| && j + 1 != k ==> before[j] != last;
      assert forall j :: 0 <= j < |before| ==> before[j] != n;
      n.next := i;
      if last == null {
        freeList := n;
      } else {
        last.next := n;
      }
      freed := before[..k] + [n] + before[k..];
      assert forall j :: 0 <= j < k ==> freed[j] == before[j];
      assert forall j :: k < j < |freed| ==> freed[j] == before[j - 1];
    }

    /** The node at position k is taken out of the list of allocated blocks. */
    method UnhookUsed(n: Node, last: Node?, ghost k: nat)
      requires Linked(allocatedList, taken) && Distinct(taken)
      requires k < |taken| && n == taken[k] && last == if k == 0 then null else taken[k - 1]
      modifies this`allocatedList, this`taken, taken`next
      ensures taken == Without(old(taken), k) && Linked(allocatedList, taken) && n.next == null
    {
      ghost var before := taken;
      assert forall j :: 0 <= j < |before| && j != k ==> before[j] != n;
      assert forall j :: 0 <= j < |before| && j + 1 != k ==> before[j] != last;
      if last == null {
        allocatedList := n.next;
      } else {
        last.next := n.next;
      }
      n.next := null;
      taken := Without(taken, k);
    }

    /** And out of the free list. */
    method UnhookFree(n: Node, last: Node?, ghost k: nat)
      requires Linked(freeList, freed) && Distinct(freed)
      requires k < |freed| && n == freed[k] && last == if k == 0 then null else freed[k - 1]
      modifies this`freeList, this`freed, freed`next
      ensures freed == Without(old(freed), k) && Linked(freeList, freed) && n.next == null
    {
      ghost var before := freed;
      assert forall j :: 0 <= j < |before| && j != k ==> before[j] != n;
      assert forall j :: 0 <= j < |before| && j + 1 != k ==> before[j] != last;
      if last == null {
        freeList := n.next;
      } else {
        last.next := n.next;
      }
      n.next := null;
      freed := Without(freed, k);
    }

    /** A node moves from the allocated to the free list. */
    method Release(n: Node, last: Node?, ghost k: nat)
      requires Shape() && k < |taken| && n == taken[k] && last == if k == 0 then null else taken[k - 1]
      modifies this`allocatedList, this`freeList, this`taken, this`freed, linked`next, linked`used
      ensures Shape() && taken == Without(old(taken), k) && freed == Inserted(n, old(freed))
    {
      hide Inserted, Sorted, Distinct, Without, Members, Place;
      WithoutContent(taken, k);
      InsertedSorted(n, freed);
      InsertedContent(n, freed) by { NotBoth(linked, taken, freed); }
      Moves(linked, taken, freed, Without(taken, k), Inserted(n, freed), n);
      NotBoth(linked, taken, freed);
      UnhookUsed(n, last, k);
      n.used := false;
      InsertFree(n);
    }

    method Free(ptr: int) returns (ok: bool)
      requires Valid()
      modifies this`allocatedList, this`freeList, this`taken, this`freed, linked`next, linked`used
      ensures Valid()
      ensures ok <==> exists n :: n in old(taken) && n.block == ptr
      ensures !ok ==> taken == old(taken) && freed == old(freed)
      ensures ok ==> exists k: nat :: k < |old(taken)| && old(taken)[k].block == ptr
                                     && taken == Without(old(taken), k) && freed == Inserted(old(taken)[k], old(freed))
    {
      hide Inserted, Sorted, Without;
      var i := allocatedList;
      var last: Node? := null;
      ghost var k := 0;
      while i != null && i.block != ptr
        invariant k <= |taken| && i == (if k < |taken| then taken[k] else null) && last == (if k == 0 then null else taken[k - 1])
        invariant forall j :: 0 <= j < k ==> taken[j].block != ptr
        decreases |taken| - k
      {
        last := i;
        i := i.next;
        k := k + 1;
      }
      if i == null {
        return false;
      }
      Release(i, last, k);
      ok := true;
    }

    /** A node moves from the free to the allocated list. */
    method Reuse(n: Node, last: Node?, ghost k: nat)
      requires Shape() && k < |freed| && n == freed[k] && last == if k == 0 then null else freed[k - 1]
      modifies this`allocatedList, this`freeList, this`taken, this`freed, linked`next, linked`used
      ensures Shape() && freed == Without(old(freed), k) && taken == [n] + old(taken)
    {
      hide Sorted, Distinct, Without, Members;
      WithoutContent(freed, k);
      NotBoth(linked, taken, freed);
      ConsDistinct(n, taken);
      MembersSwap(linked, taken, freed);
      Moves(linked, freed, taken, Without(freed, k), [n] + taken, n);
      UnhookFree(n, last, k);
      n.used := true;
      InsertUsed(n);
    }

    /** _malloc_find_free; 0 is NULL. */
    method FindFree(size: int) returns (p: int)
      requires Valid()
      modifies this`allocatedList, this`freeList, this`taken, this`freed, linked`next, linked`used
      ensures Valid()
      ensures var k := FirstFit(old(freed), size);
        if k < |old(freed)| then
          && p == old(freed)[k].block && p != 0 && IsClass(old(freed)[k].size)
          && freed == Without(old(freed), k) && taken == [old(freed)[k]] + old(taken)
        else p == 0 && freed == old(freed) && taken == old(taken)
    {
      hide Sorted, Without;
      var i := freeList;
      var last: Node? := null;
      ghost var k := 0;
      while i != null && !(!i.used && i.size > size)
        invariant k <= |freed| && i == (if k < |freed| then freed[k] else null) && last == (if k == 0 then null else freed[k - 1])
        invariant forall j :: 0 <= j < k ==> freed[j].size <= size
        decreases |freed| - k
      {
        last := i;
        i := i.next;
        k := k + 1;
      }
      FirstFitIs(freed, size, k);
      if i == null {
        return 0;
      }
      Reuse(i, last, k);
      p := i.block;
    }

    /** _malloc_add_new; a node whose block is refused is lost. */
    method AddNew(size: int) returns (p: int)
      requires Valid() && IsClass(size)
      modifies this
      ensures Valid() && freed == old(freed) && old(linked) <= linked
      ensures p == 0 ==> taken == old(taken)
      ensures p != 0 ==> |taken| > 0 && taken[1..] == old(taken) && fresh(taken[0]) && taken[0].block == p && taken[0].size == size
    {
      hide Sorted, Distinct, Inside, Apart, Space, Linked, Power;
      ghost var high := if brkPtr == 0 then start else mallocPtr;
      if brkPtr == 0 {
        NoSpace(linked, start, mallocPtr, high);
      }
      var address := MallocBrk(NODE_SIZE);
      SpaceGrows(linked, start, high, mallocPtr);
      if address == 0 {
        return 0;
      }
      ghost var middle := mallocPtr;
      p := MallocBrk(size);
      SpaceGrows(linked, start, high, mallocPtr);
      if p == 0 {
        return 0;
      }
      var n := new Node(address, p, size);
      NewInside(n, high, mallocPtr);
      SpaceTaken(linked, n, start, high, mallocPtr);
      ConsDistinct(n, taken);
      linked := linked + {n};
      InsertUsed(n);
    }

    /** 0 is NULL. A request of 0 or above the largest class gives nothing; otherwise the smallest
        free block strictly larger than the class of the request is reused, and only if there is
        none does the heap grow by a node and a block of that class. */
    method Malloc(size: int) returns (p: int)
      requires Valid() && size >= 0
      modifies this, linked`next, linked`used
      ensures Valid() && old(linked) <= linked
      ensures size == 0 || size > LARGEST ==> p == 0 && taken == old(taken) && freed == old(freed)
      ensures 0 < size <= LARGEST ==>
        && ClassOf(size).Some?
        && var c := ClassOf(size).value; var k := FirstFit(old(freed), c);
        if k < |old(freed)| then p == old(freed)[k].block && freed == Without(old(freed), k) && taken == [old(freed)[k]] + old(taken)
        else freed == old(freed) && (p == 0 || (taken != [] && fresh(taken[0]) && taken[0].size == c && taken[0].block == p))
      ensures if p == 0 then taken == old(taken) else taken != [] && taken[1..] == old(taken) && taken[0].block == p
      ensures p != 0 ==> size <= taken[0].size && IsClass(taken[0].size)
    {
      hide Power, Apart, Linked, Sorted, Distinct, Marked, Members;
      p := 0;
      ClassFits(size);
      if size == 0 {
        return;
      }
      var max := LARGEST;
      var used := SMALLEST;
      while used < size
        invariant 0 < used <= max && ClassFrom(used, size) == ClassOf(size)
        decreases max - used
      {
        used := 2 * used;
        if used > max {
          return;
        }
      }
      p := FindFree(used);
      if p == 0 {
        p := AddNew(used);
      }
    }
  }

  /** Two live blocks have no byte in common, nor has a live block one with a node. */
  lemma LiveBlocksApart(h: Heap, i: nat, j: nat)
    requires h.Valid() && i < |h.taken| && j < |h.taken| && i != j
    ensures ApartRanges(h.taken[i].block, h.taken[i].size, h.taken[j].block, h.taken[j].size)
    ensures ApartRanges(h.taken[i].block, h.taken[i].size, h.taken[j].address, NODE_SIZE)
    ensures h.taken[i].block != h.taken[j].block
  {
    hide Linked, Sorted, Marked, Power;
    NotBoth(h.linked, h.taken, h.freed);
    assert Apart(h.taken[i], h.taken[j]);
  }

  /** Nor has a live block one with a free block. */
  lemma LiveAndFreeApart(h: Heap, i: nat, j: nat)
    requires h.Valid() && i < |h.taken| && j < |h.freed|
    ensures ApartRanges(h.taken[i].block, h.taken[i].size, h.freed[j].block, h.freed[j].size)
  {
    hide Linked, Sorted, Marked, Power;
    NotBoth(h.linked, h.taken, h.freed);
    MembersSwap(h.linked, h.taken, h.freed);
    assert h.taken[i] != h.freed[j] && h.freed[j] in h.linked;
    assert Apart(h.taken[i], h.freed[j]);
  }

  lemma NoSpace(nodes: set<Node>, low: int, high: int, other: int)
    requires nodes == {}
    ensures Space(nodes, low, high) && Space(nodes, low, other)
  {
  }

  lemma NewInside(n: Node, low: int, high: int)
    requires n.address == low && n.block == low + NODE_SIZE && high == n.block + n.size && IsClass(n.size)
    ensures Inside(n, low, high)
  {
  }

  lemma WithoutContent(s: seq<Node>, k: nat)
    requires k < |s| && Distinct(s)
    ensures var r := Without(s, k);
      Distinct(r) && s[k] !in r && forall n :: n in r <==> n in s && n != s[k]
    ensures Sorted(s) ==> Sorted(Without(s, k))
  {
    var r := Without(s, k);
    forall n | n in s && n != s[k]
      ensures n in r
    {
      var j :| 0 <= j < |s| && s[j] == n;
      assert n == r[if j < k then j else j - 1];
    }
  }

  lemma ConsDistinct(n: Node, s: seq<Node>)
    requires Distinct(s) && n !in s
    ensures Distinct([n] + s)
  {
  }

  lemma InsertedContent(n: Node, f: seq<Node>)
    requires Distinct(f) && n !in f
    ensures Distinct(Inserted(n, f)) && forall m :: m in Inserted(n, f) <==> m == n || m in f
  {
    var k := Place(n, f);
    assert f == f[..k] + f[k..];
  }

  lemma FirstFitIs(f: seq<Node>, size: int, k: nat)
    requires k <= |f| && (forall j :: 0 <= j < k ==> f[j].size <= size) && (k < |f| ==> f[k].size > size)
    ensures FirstFit(f, size) == k
  {
  }

  lemma PlaceIs(n: Node, f: seq<Node>, k: nat)
    requires k <= |f| && (forall j :: 0 <= j < k ==> f[j].size < n.size) && (k < |f| ==> n.size <= f[k].size)
    ensures Place(n, f) == k
  {
  }
}
