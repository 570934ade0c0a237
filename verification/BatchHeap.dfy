/** The heap of scalars and points of batch verification (ed25519-donna-batchverify.h). */
module BatchHeap {
  import opened ScalarModM
  import opened ScalarBatch
  import opened GroupElements
  import opened HeapOrder

  const MAX_BATCH_SIZE: nat := 64
  const HEAP_BATCH_SIZE: nat := MAX_BATCH_SIZE * 2 + 1

  ghost function Vals(s: seq<Scalar>): (v: seq<int>)
    ensures |v| == |s|
    ensures forall i :: 0 <= i < |s| ==> v[i] == SVal(s[i])
  {
    seq(|s|, i requires 0 <= i < |s| => SVal(s[i]))
  }

  /** The first `n` scalars have no limb above `limbsize`. */
  ghost predicate AllFit(s: seq<Scalar>, n: nat, limbsize: nat) {
    n <= |s| && forall i :: 0 <= i < n ==> Fits(s[i], limbsize)
  }

  /** `(node - 1) / 2` on 64-bit words: at node 0 the subtraction wraps. */
  function Parent(node: nat): nat {
    (node + 0xffffffffffffffff) % 0x10000000000000000 / 2
  }

  lemma ParentIsUp(node: nat)
    requires 0 < node < 0x10000000000000000
    ensures Parent(node) == Up(node)
  {}

  /** The scalar an entry of the heap stands for. */
  lemma Entry(h: seq<nat>, s: seq<Scalar>, n: nat, limbsize: nat, i: nat)
    requires Indices(h, n) && AllFit(s, n, limbsize) && i < n
    ensures h[i] < n && Fits(s[h[i]], limbsize)
  {
    hide Fits;
  }

  lemma Compared(h: seq<nat>, s: seq<Scalar>, a: nat, b: nat)
    requires a < |h| && b < |h| && h[a] < |s| && h[b] < |s|
    ensures Under(h, Vals(s), a, b) <==> SVal(s[h[a]]) <= SVal(s[h[b]])
    ensures Under(h, Vals(s), b, a) <==> SVal(s[h[b]]) <= SVal(s[h[a]])
  {
    hide SVal;
  }

  class Heap {
    const points: array<Ge>
    const scalars: array<Scalar>
    const heap: array<nat>
    var size: nat

    ghost predicate Sized()
      reads this
    {
      points.Length == scalars.Length == heap.Length == HEAP_BATCH_SIZE && size <= HEAP_BATCH_SIZE
    }

    ghost predicate Valid()
      reads this, heap, scalars
    {
      Sized() && Indices(heap[..], size) && Ordered(heap[..], Vals(scalars[..]), size)
    }

    constructor ()
      ensures Sized() && fresh(points) && fresh(scalars) && fresh(heap)
    {
      points := new Ge[HEAP_BATCH_SIZE];
      scalars := new Scalar[HEAP_BATCH_SIZE];
      heap := new nat[HEAP_BATCH_SIZE];
      size := 0;
    }

    method HeapSwap(a: nat, b: nat)
      requires a < heap.Length && b < heap.Length
      modifies heap
      ensures heap[..] == Swap(old(heap[..]), a, b)
    {
      var temp := heap[a];
      heap[a] := heap[b];
      heap[b] := temp;
    }

    /** The next scalar of the list joins the heap. */
    method InsertNext()
      requires Valid() && size < HEAP_BATCH_SIZE && AllFit(scalars[..], size + 1, 4)
      modifies heap, this`size
      ensures Valid() && size == old(size) + 1
    {
      hide SVal, Fits, Indices, Ordered, Rising, Under, Vals, Swap;
      ghost var v := Vals(scalars[..]);
      var node := size;
      heap[node] := node;
      Appended(old(heap[..]), v, node, heap[..]);
      var parent := Parent(node);
      while node != 0
        invariant node <= size
        invariant parent == Parent(node)
        invariant Rising(heap[..], v, size + 1, node) && Indices(heap[..], size + 1)
        decreases node
        modifies heap
      {
        ParentIsUp(node);
        Entry(heap[..], scalars[..], size + 1, 4, parent);
        Entry(heap[..], scalars[..], size + 1, 4, node);
        var less := LtBatch(scalars[heap[parent]], scalars[heap[node]], 4);
        Compared(heap[..], scalars[..], parent, node);
        if !less {
          break;
        }
        RisingStep(heap[..], v, size + 1, node);
        SwapIndices(heap[..], size + 1, parent, node);
        HeapSwap(parent, node);
        node := parent;
        parent := Parent(node);
      }
      RisingDone(heap[..], v, size + 1, node);
      size := size + 1;
    }

    /** Restores the order after the value at the root has changed. */
    method UpdatedRoot(limbsize: nat)
      requires Sized() && Indices(heap[..], size) && Sinking(heap[..], Vals(scalars[..]), size, 0)
      requires 3 <= size && size % 2 == 1 && limbsize <= 4 && AllFit(scalars[..], size, limbsize)
      modifies heap
      ensures Valid()
    {
      hide SVal, Fits, Indices, Ordered, Rising, Sinking, Under, Vals, Swap;
      ghost var v := Vals(scalars[..]);
      var node: nat := SiftToBottom(limbsize);
      SunkToLeaf(heap[..], v, size, node);
      var parent := Parent(node);
      while node != 0
        invariant node < size
        invariant parent == Parent(node)
        invariant Rising(heap[..], v, size, node) && Indices(heap[..], size)
        decreases node
      {
        ParentIsUp(node);
        Entry(heap[..], scalars[..], size, limbsize, parent);
        Entry(heap[..], scalars[..], size, limbsize, node);
        var less := LteBatch(scalars[heap[parent]], scalars[heap[node]], limbsize);
        Compared(heap[..], scalars[..], parent, node);
        if !less {
          break;
        }
        RisingStep(heap[..], v, size, node);
        SwapIndices(heap[..], size, parent, node);
        HeapSwap(parent, node);
        node := parent;
        parent := Parent(node);
      }
      RisingDone(heap[..], v, size, node);
    }

    /** The first loop of the root update: the root goes down along the larger children to a leaf. */
    method SiftToBottom(limbsize: nat) returns (node: nat)
      requires Sized() && Indices(heap[..], size) && Sinking(heap[..], Vals(scalars[..]), size, 0)
      requires 3 <= size && size % 2 == 1 && limbsize <= 4 && AllFit(scalars[..], size, limbsize)
      modifies heap
      ensures Sinking(heap[..], Vals(scalars[..]), size, node) && Indices(heap[..], size)
      ensures node < size && 2 * node + 1 >= size
    {
      hide SVal, Fits, Indices, Ordered, Rising, Sinking, Under, Vals, Swap;
      ghost var v := Vals(scalars[..]);
      var parent, childl, childr := 0, 1, 2;
      node := 1;
      while childr < size
        invariant parent < size && childl == 2 * parent + 1 && childr == childl + 1
        invariant (parent == 0 && node == 1) || node == parent
        invariant Sinking(heap[..], v, size, parent) && Indices(heap[..], size)
        decreases size - parent
      {
        Entry(heap[..], scalars[..], size, limbsize, childl);
        Entry(heap[..], scalars[..], size, limbsize, childr);
        var less := LtBatch(scalars[heap[childl]], scalars[heap[childr]], limbsize);
        node := if less then childr else childl;
        Compared(heap[..], scalars[..], childl, childr);
        Compared(heap[..], scalars[..], node, node);
        SinkingStep(heap[..], v, size, parent, node);
        SwapIndices(heap[..], size, parent, node);
        HeapSwap(parent, node);
        parent := node;
        childl := parent * 2 + 1;
        childr := childl + 1;
      }
    }

    method Build(count: nat)
      requires Sized() && count <= HEAP_BATCH_SIZE && AllFit(scalars[..], count, 4)
      modifies heap, this`size
      ensures Valid() && size == count
    {
      heap[0] := 0;
      size := 0;
      Extend(count);
    }

    method Extend(count: nat)
      requires Valid() && size <= count <= HEAP_BATCH_SIZE && AllFit(scalars[..], count, 4)
      modifies heap, this`size
      ensures Valid() && size == count
    {
      hide Fits, Indices, Ordered, Vals;
      while size < count
        invariant Valid() && size <= count
      {
        InsertNext();
      }
    }

    method GetTop2(limbsize: nat) returns (max1: nat, max2: nat)
      requires Valid() && 3 <= size && limbsize <= 4 && AllFit(scalars[..], size, limbsize)
      ensures max1 < size && max2 < size && max1 != max2 && max1 == heap[0]
      ensures forall k :: 0 <= k < size ==> SVal(scalars[k]) <= SVal(scalars[max1])
      ensures forall k :: 0 <= k < size && k != max1 ==> SVal(scalars[k]) <= SVal(scalars[max2])
    {
      hide SVal, Fits, Indices, Ordered;
      Entry(heap[..], scalars[..], size, limbsize, 0);
      Entry(heap[..], scalars[..], size, limbsize, 1);
      Entry(heap[..], scalars[..], size, limbsize, 2);
      var h0, h1, h2 := heap[0], heap[1], heap[2];
      var less := LtBatch(scalars[h1], scalars[h2], limbsize);
      if less {
        h1 := h2;
      }
      max1, max2 := h0, h1;
      TopTwo(heap[..], Vals(scalars[..]), size, max1, max2);
    }
  }
}
