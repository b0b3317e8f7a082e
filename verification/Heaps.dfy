/** The bump allocator and the fixed-length allocator
    (kernel-lib/src/allocator/bump_allocator.rs, kernel-lib/src/allocator/fixed_length_allocator.rs). */
module Heaps {
  import opened Basics
  import opened Placement

  datatype Heap = Heap(start: Usize, end: Usize, next: Usize, count: nat)

  /** The pointer is 0 on failure. */
  function AfterAlloc(h: Heap, l: Layout, b: Boundary): (Heap, Usize)
    requires ValidRequest(l, b)
  {
    match AlignAndBoundaryTo(h.next, l, b)
    case None => (h, 0)
    case Some(r) => if r.end >= h.end then (h, 0) else (h.(next := r.end, count := h.count + 1), r.start)
  }

  function AfterDealloc(h: Heap): Heap
    requires h.count > 0
  {
    h.(count := h.count - 1, next := if h.count == 1 then h.start else h.next)
  }

  class BumpAllocator {
    var heapStart: Usize
    var heapEnd: Usize
    var next: Usize
    var nAllocations: nat

    ghost function View(): Heap
      reads this
    {
      Heap(heapStart, heapEnd, next, nAllocations)
    }

    constructor ()
      ensures View() == Heap(0, 0, 0, 0)
    {
      heapStart, heapEnd, next, nAllocations := 0, 0, 0, 0;
    }

    method Init(heapStart: Usize, heapEnd: Usize)
      modifies this
      ensures View() == Heap(heapStart, heapEnd, heapStart, old(nAllocations))
    {
      this.heapStart, this.heapEnd, next := heapStart, heapEnd, heapStart;
    }

    method Alloc(l: Layout, b: Boundary) returns (ptr: Usize)
      requires ValidRequest(l, b)
      modifies this
      ensures (View(), ptr) == AfterAlloc(old(View()), l, b)
    {
      var range := AlignAndBoundaryTo(next, l, b);
      if range.None? || range.value.end >= heapEnd {
        return 0;
      }
      next := range.value.end;
      nAllocations := nAllocations + 1;
      return range.value.start;
    }

    method Dealloc()
      requires nAllocations > 0
      modifies this
      ensures View() == AfterDealloc(old(View()))
    {
      nAllocations := nAllocations - 1;
      if nAllocations == 0 {
        next := heapStart;
      }
    }
  }

  // Runs

  datatype Block = Block(start: nat, layout: Layout, boundary: Boundary) {
    function End(): nat {
      start + layout.size
    }
  }

  predicate Disjoint(a: Block, b: Block) {
    a.End() <= b.start || b.End() <= a.start
  }

  /** `epoch` is every block handed out since the heap was last empty, live or not. */
  datatype System = System(heap: Heap, live: set<Block>, epoch: set<Block>)

  datatype Step = Alloc(layout: Layout, boundary: Boundary) | Dealloc(block: Block)

  /** Callers ask for non-zero sizes and free only live blocks. */
  predicate Possible(s: System, step: Step) {
    match step
    case Alloc(l, b) => ValidRequest(l, b) && l.size > 0
    case Dealloc(block) => block in s.live && s.heap.count > 0
  }

  /** A request that the address arithmetic can place, or that is larger than the heap's last address. */
  predicate Answerable(h: Heap, l: Layout, b: Boundary)
    requires ValidRequest(l, b)
  {
    Placeable(h.next, l, b) || l.size >= h.end
  }

  predicate Enabled(s: System, step: Step) {
    Possible(s, step) && (step.Alloc? ==> Answerable(s.heap, step.layout, step.boundary))
  }

  function Next(s: System, step: Step): System
    requires Possible(s, step)
  {
    match step
    case Alloc(l, b) =>
      var (h, ptr) := AfterAlloc(s.heap, l, b);
      if ptr == 0 then s.(heap := h)
      else s.(heap := h, live := s.live + {Block(ptr, l, b)}, epoch := s.epoch + {Block(ptr, l, b)})
    case Dealloc(block) =>
      var live := s.live - {block};
      System(AfterDealloc(s.heap), live, if live == {} then {} else s.epoch)
  }

  ghost predicate IsRun(run: seq<System>, steps: seq<Step>) {
    && |run| == |steps| + 1
    && forall k :: 0 <= k < |steps| ==> Enabled(run[k], steps[k]) && run[k + 1] == Next(run[k], steps[k])
  }

  predicate Initialized(s: System) {
    s.heap.start > 0 && s.heap.next == s.heap.start && s.heap.count == 0 && s.live == {} && s.epoch == {}
  }

  ghost predicate Safe(s: System) {
    && 0 < s.heap.start <= s.heap.next
    && s.heap.count == |s.live|
    && s.live <= s.epoch
    && (s.live == {} ==> s.heap.next == s.heap.start && s.epoch == {})
    && (s.epoch != {} ==> exists b :: b in s.epoch && b.End() == s.heap.next)
    && (forall b :: b in s.epoch ==>
          && s.heap.start <= b.start < b.End() <= s.heap.next && b.End() < s.heap.end
          && Suitable(b.start, b.layout, b.boundary))
    && (forall a, b :: a in s.epoch && b in s.epoch && a != b ==> Disjoint(a, b))
  }

  lemma PlacedKeepsSafe(s: System, l: Layout, b: Boundary)
    requires Safe(s) && Possible(s, Alloc(l, b)) && Placeable(s.heap.next, l, b)
    ensures Safe(Next(s, Alloc(l, b)))
  {
    PlacementOutcome(s.heap.next, l, b);
    var ptr := AfterAlloc(s.heap, l, b).1;
    if ptr != 0 {
      var block := Block(ptr, l, b);
      assert s.heap.next <= block.start && forall a :: a in s.epoch ==> a.End() <= block.start;
      assert block !in s.live;
    }
  }

  /** An allocation is apart from everything handed out since the heap was last empty, exactly if it is answerable:
      any other is counted and moves `next` to the front of the address space, but its pointer is null. */
  lemma AllocKeepsSafeExactly(s: System, l: Layout, b: Boundary)
    requires Safe(s) && Possible(s, Alloc(l, b))
    ensures Safe(Next(s, Alloc(l, b))) <==> Answerable(s.heap, l, b)
    ensures !Answerable(s.heap, l, b) ==>
      Next(s, Alloc(l, b)) == s.(heap := s.heap.(next := l.size, count := s.heap.count + 1))
  {
    if Placeable(s.heap.next, l, b) {
      PlacedKeepsSafe(s, l, b);
    } else {
      WrappedPlacement(s.heap.next, l, b);
    }
  }

  lemma DeallocKeepsSafe(s: System, block: Block)
    requires Safe(s) && Enabled(s, Dealloc(block))
    ensures Safe(Next(s, Dealloc(block)))
  {}

  /** Over every run live blocks are pairwise disjoint, suitably placed, inside the heap, and as many as the
      allocator counts; blocks are placed apart from everything handed out since the heap was last empty. */
  lemma {:induction false} BumpRunIsSafe(run: seq<System>, steps: seq<Step>, k: nat)
    requires IsRun(run, steps) && Initialized(run[0]) && k < |run|
    ensures Safe(run[k])
    decreases k
  {
    if k > 0 {
      BumpRunIsSafe(run, steps, k - 1);
      assert run[k - 1 + 1] == Next(run[k - 1], steps[k - 1]);
      match steps[k - 1]
      case Alloc(l, b) => AllocKeepsSafeExactly(run[k - 1], l, b);
      case Dealloc(block) => DeallocKeepsSafe(run[k - 1], block);
    }
  }

  /** Some block that ends before `end` starts suitably at or behind `from`. */
  ghost predicate Fits(from: nat, end: nat, l: Layout, b: Boundary) {
    exists start: nat :: from <= start && Suitable(start, l, b) && start + l.size < end
  }

  /** `ptr` is the least suitable start at or behind `from`. */
  ghost predicate IsLeast(from: nat, ptr: nat, l: Layout, b: Boundary) {
    from <= ptr && Suitable(ptr, l, b) && forall start: nat :: from <= start && Suitable(start, l, b) ==> ptr <= start
  }

  /** An answerable request succeeds exactly when some suitable block ends before the heap does. It gets the least one,
      `next` moves to its end and it is counted; otherwise nothing changes. */
  lemma AllocExactly(h: Heap, l: Layout, b: Boundary)
    requires ValidRequest(l, b) && Answerable(h, l, b)
    ensures var (h', ptr) := AfterAlloc(h, l, b);
      if Fits(h.next, h.end, l, b)
      then IsLeast(h.next, ptr, l, b) && ptr + l.size < h.end && h' == Heap(h.start, h.end, ptr + l.size, h.count + 1)
      else h' == h && ptr == 0
  {
    PlacementOutcome(h.next, l, b);
  }

  /** In a safe heap a pointer other than null is a success. */
  lemma AllocSucceedsExactly(s: System, l: Layout, b: Boundary)
    requires Safe(s) && Enabled(s, Alloc(l, b))
    ensures AfterAlloc(s.heap, l, b).1 != 0 <==> Fits(s.heap.next, s.heap.end, l, b)
  {
    AllocExactly(s.heap, l, b);
  }

  /** A free is counted, and only the last one moves `next`: back to the start. */
  lemma DeallocExactly(h: Heap)
    requires h.count > 0
    ensures AfterDealloc(h) == Heap(h.start, h.end, if h.count - 1 == 0 then h.start else h.next, h.count - 1)
  {}

  /** Before `init` every request fails. */
  lemma UninitializedAllocFails(l: Layout, b: Boundary)
    requires ValidRequest(l, b)
    ensures AfterAlloc(Heap(0, 0, 0, 0), l, b) == (Heap(0, 0, 0, 0), 0)
  {}

  // The fixed-length allocator

  datatype Fixed = Fixed(base: Usize, size: nat, next: nat)

  predicate FixedInRange(f: Fixed) {
    f.next < f.size && f.base + f.size < WORD_SIZE
  }

  /** None is the out-of-memory panic. */
  function AfterFixedAlloc(f: Fixed, l: Layout, b: Boundary): Option<(Fixed, nat)>
    requires ValidRequest(l, b) && FixedInRange(f)
  {
    match AlignAndBoundaryTo(f.base + f.next, l, b)
    case None => None
    case Some(r) =>
      if r.end >= f.base + f.size || r.end < f.base then None
      else Some((f.(next := r.end - f.base), r.start))
  }

  class FixedLengthAllocator {
    const base: Usize
    const size: nat
    var next: nat

    ghost function View(): Fixed
      reads this
    {
      Fixed(base, size, next)
    }

    constructor (base: Usize, size: nat)
      ensures View() == Fixed(base, size, 0)
      ensures size > 0 && base + size < WORD_SIZE ==> FixedInRange(View())
    {
      this.base, this.size, next := base, size, 0;
    }

    method Alloc(l: Layout, b: Boundary) returns (ptr: Option<nat>)
      requires ValidRequest(l, b) && FixedInRange(View())
      modifies this
      ensures match AfterFixedAlloc(old(View()), l, b)
        case None => ptr == None && View() == old(View())
        case Some(r) => ptr == Some(r.1) && View() == r.0
    {
      var range := AlignAndBoundaryTo(base + next, l, b);
      if range.None? || range.value.end >= base + size || range.value.end < base {
        return None;
      }
      next := range.value.end - base;
      return Some(range.value.start);
    }
  }

  /** A run of successful requests: the k-th block is handed out in the k-th state. */
  ghost predicate IsFixedRun(run: seq<Fixed>, blocks: seq<Block>) {
    && |run| == |blocks| + 1 && FixedInRange(run[0])
    && forall k :: 0 <= k < |blocks| ==> FixedStep(run[k], blocks[k], run[k + 1])
  }

  predicate FixedStep(f: Fixed, block: Block, f': Fixed) {
    && FixedInRange(f) && ValidRequest(block.layout, block.boundary)
    && FixedAnswerable(f, block.layout, block.boundary)
    && AfterFixedAlloc(f, block.layout, block.boundary) == Some((f', block.start))
  }

  /** A request that the address arithmetic can place, or whose size alone lies outside the heap's addresses. */
  predicate FixedAnswerable(f: Fixed, l: Layout, b: Boundary)
    requires ValidRequest(l, b) && FixedInRange(f)
  {
    Placeable(f.base + f.next, l, b) || l.size < f.base || l.size >= f.base + f.size
  }

  /** The block lies behind everything handed out before and `next` moves to its end. */
  ghost predicate PlacedBehind(f: Fixed, l: Layout, b: Boundary, ptr: nat, f': Fixed) {
    && FixedInRange(f') && f' == f.(next := f'.next) && Suitable(ptr, l, b)
    && f.base + f.next <= ptr && ptr + l.size == f.base + f'.next
  }

  /** A request is refused or well placed exactly if it is answerable. */
  lemma FixedAllocIsSafeExactly(f: Fixed, l: Layout, b: Boundary)
    requires ValidRequest(l, b) && FixedInRange(f)
    ensures FixedAnswerable(f, l, b) <==>
      match AfterFixedAlloc(f, l, b)
      case None => true
      case Some((f', ptr)) => PlacedBehind(f, l, b, ptr, f')
  {
    PlacementOutcome(f.base + f.next, l, b);
  }

  /** An answerable request succeeds exactly when it is placeable and some suitable block ends before the heap does. It
      gets the least one and `next` moves to its end; otherwise the program runs out of memory. */
  lemma FixedAllocExactly(f: Fixed, l: Layout, b: Boundary)
    requires ValidRequest(l, b) && FixedInRange(f) && FixedAnswerable(f, l, b)
    ensures match AfterFixedAlloc(f, l, b)
      case None => !(Placeable(f.base + f.next, l, b) && Fits(f.base + f.next, f.base + f.size, l, b))
      case Some((f', ptr)) =>
        && Placeable(f.base + f.next, l, b) && IsLeast(f.base + f.next, ptr, l, b)
        && ptr + l.size < f.base + f.size && f' == Fixed(f.base, f.size, ptr + l.size - f.base)
  {
    PlacementOutcome(f.base + f.next, l, b);
  }

  /** The first `k` blocks of a run. */
  ghost predicate FixedSafe(run: seq<Fixed>, blocks: seq<Block>, k: nat)
    requires k < |run| && k <= |blocks|
  {
    && FixedInRange(run[k]) && run[k] == run[0].(next := run[k].next) && run[0].next <= run[k].next
    && (forall i :: 0 <= i < k ==>
          && Suitable(blocks[i].start, blocks[i].layout, blocks[i].boundary)
          && run[0].base + run[0].next <= blocks[i].start && blocks[i].End() <= run[k].base + run[k].next)
    && (forall i, j :: 0 <= i < j < k ==> blocks[i].End() <= blocks[j].start)
  }

  /** Every block is suitably placed inside the heap, after every earlier one, and `next` stays in range. */
  lemma {:induction false} FixedRunIsSafe(run: seq<Fixed>, blocks: seq<Block>, k: nat)
    requires IsFixedRun(run, blocks) && k < |run|
    ensures FixedSafe(run, blocks, k)
    decreases k
  {
    if k > 0 {
      FixedRunIsSafe(run, blocks, k - 1);
      assert FixedStep(run[k - 1], blocks[k - 1], run[k - 1 + 1]);
      FixedAllocIsSafeExactly(run[k - 1], blocks[k - 1].layout, blocks[k - 1].boundary);
    }
  }
}
