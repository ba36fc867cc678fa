/**
 * The array-backed binary min-heap (Sources/MazeSolver/PriorityQueue.swift), with its
 * comparator specialised to `<` on scores, the only ordering the search uses.
 */
module PriorityQueues {
  import opened Wrappers

  /** A heap slot: `(score: Int, element: Element)`. */
  datatype Scored<T> = Scored(score: int, element: T)

  /** Heap order: no child scores strictly below its parent. */
  ghost predicate IsHeap<T>(h: seq<Scored<T>>)
  {
    forall p, c :: 0 <= p < |h| && 0 < c < |h| && p == (c - 1) / 2 ==> h[p].score <= h[c].score
  }

  /**
   * Heap order while sifting up from `k`: every link holds except the one between `k` and its
   * parent, and `k`'s parent is no larger than `k`'s children.
   */
  ghost predicate HeapExceptUp<T>(h: seq<Scored<T>>, k: nat)
  {
    && (forall p, c :: 0 <= p < |h| && 0 < c < |h| && p == (c - 1) / 2 && c != k ==> h[p].score <= h[c].score)
    && (0 < k < |h| ==> forall c :: 0 < c < |h| && (c - 1) / 2 == k ==> h[(k - 1) / 2].score <= h[c].score)
  }

  /**
   * Heap order while sifting down from `k`: every link holds except those from `k` to its
   * children, and `k`'s parent is no larger than `k`'s children.
   */
  ghost predicate HeapExceptDown<T>(h: seq<Scored<T>>, k: nat)
  {
    && (forall p, c :: 0 <= p < |h| && 0 < c < |h| && p == (c - 1) / 2 && p != k ==> h[p].score <= h[c].score)
    && (0 < k < |h| ==> forall c :: 0 < c < |h| && (c - 1) / 2 == k ==> h[(k - 1) / 2].score <= h[c].score)
  }

  /** In a heap the root scores no more than any slot. */
  lemma {:induction false} RootIsMinimum<T>(h: seq<Scored<T>>, i: nat)
    requires IsHeap(h)
    requires i < |h|
    ensures h[0].score <= h[i].score
    decreases i
  {
    if i > 0 {
      RootIsMinimum(h, (i - 1) / 2);
    }
  }

  /** Swapping a slot with its smallest child, when that child is smaller, moves the gap down. */
  lemma SwapWithSmallerChild<T>(h: seq<Scored<T>>, k: nat, f: nat)
    requires HeapExceptDown(h, k)
    requires k < f < |h| && (f - 1) / 2 == k
    requires h[f].score < h[k].score
    requires forall c :: 0 < c < |h| && (c - 1) / 2 == k ==> h[f].score <= h[c].score
    ensures HeapExceptDown(h[k := h[f]][f := h[k]], f)
  {
    var h' := h[k := h[f]][f := h[k]];
    forall p, c | 0 <= p < |h'| && 0 < c < |h'| && p == (c - 1) / 2 && p != f
      ensures h'[p].score <= h'[c].score
    {
      if p == k {
        assert h'[p] == h[f];
        if c != f {
          assert h'[c] == h[c];
        }
      } else if c == k {
        assert h'[c] == h[f] && h'[p] == h[p];
      } else {
        assert h'[p] == h[p] && h'[c] == h[c];
      }
    }
    forall c | 0 < c < |h'| && (c - 1) / 2 == f
      ensures h'[(f - 1) / 2].score <= h'[c].score
    {
      assert h'[c] == h[c];
    }
  }

  /** A slot no larger than its children closes the gap left by sifting down. */
  lemma ChildrenNotSmaller<T>(h: seq<Scored<T>>, k: nat)
    requires HeapExceptDown(h, k)
    requires forall c :: 0 < c < |h| && (c - 1) / 2 == k ==> h[k].score <= h[c].score
    ensures IsHeap(h)
  {
  }

  class PriorityQueue<T> {
    /** The heap, stored level by level in a growable array. */
    var heap: seq<Scored<T>>

    ghost predicate Valid()
      reads this
    {
      IsHeap(heap)
    }

    /** The entries queued, regardless of their order in `heap`. */
    ghost function Items(): multiset<Scored<T>>
      reads this
    {
      multiset(heap)
    }

    /** `init(areSorted:)` with `areSorted` fixed to `<`: an empty queue. */
    constructor ()
      ensures Valid() && heap == []
    {
      heap := [];
    }

    /** `isEmpty`: no entry is queued. */
    function IsEmpty(): (b: bool)
      reads this
      ensures b <==> Items() == multiset{}
    {
      |heap| == 0
    }

    /** Adds the pair `(score, element)`; equal scores and equal elements are kept side by side. */
    method Enqueue(element: T, score: int)
      requires Valid()
      modifies this
      ensures Valid()
      ensures Items() == old(Items()) + multiset{Scored(score, element)}
      ensures |heap| == old(|heap|) + 1
    {
      heap := heap + [Scored(score, element)];
      SiftUp(|heap| - 1);
    }

    /** Removes and returns an entry of lowest score, or returns `nil` when the queue is empty. */
    method Dequeue() returns (r: Option<Scored<T>>)
      requires Valid()
      modifies this
      ensures Valid()
      ensures old(|heap|) == 0 ==> r == None && heap == old(heap)
      ensures old(|heap|) > 0 ==> r.Some? && |heap| == old(|heap|) - 1
      ensures r.Some? ==> Items() + multiset{r.value} == old(Items())
      ensures r.Some? ==> forall e :: e in Items() ==> r.value.score <= e.score
    {
      if |heap| == 0 {
        return None;
      }
      ghost var h := heap;
      forall i | 0 <= i < |h| ensures h[0].score <= h[i].score {
        RootIsMinimum(h, i);
      }
      SwapAt(0, |heap| - 1);
      var last := heap[|heap| - 1];
      assert heap == heap[..|heap| - 1] + [last];
      heap := heap[..|heap| - 1];
      assert multiset(h) == multiset(heap) + multiset{last};
      SiftDown(0);
      r := Some(last);
      forall e | e in Items() ensures last.score <= e.score {
        assert e in multiset(h);
      }
    }

    /** Moves the slot at `index` towards the root while it scores below its parent. */
    method SiftUp(index: nat)
      requires index < |heap|
      requires HeapExceptUp(heap, index)
      modifies this
      ensures IsHeap(heap)
      ensures multiset(heap) == old(multiset(heap)) && |heap| == old(|heap|)
    {
      var i: nat := index;
      while i > 0
        invariant i < |heap| == old(|heap|)
        invariant HeapExceptUp(heap, i)
        invariant multiset(heap) == old(multiset(heap))
        decreases i
      {
        var parent := (i - 1) / 2;
        if !(heap[i].score < heap[parent].score) {
          break;
        }
        SwapAt(i, parent);
        i := parent;
      }
    }

    /** Moves the slot at `index` away from the root while a child scores below it. */
    method SiftDown(index: nat)
      requires HeapExceptDown(heap, index)
      modifies this
      ensures IsHeap(heap)
      ensures multiset(heap) == old(multiset(heap)) && |heap| == old(|heap|)
    {
      var i: nat := index;
      var count := |heap|;
      while true
        invariant |heap| == count
        invariant HeapExceptDown(heap, i)
        invariant multiset(heap) == old(multiset(heap))
        decreases count - i
      {
        var left := 2 * i + 1;
        var right := 2 * i + 2;
        var first := i;
        if left < count && heap[left].score < heap[first].score {
          first := left;
        }
        if right < count && heap[right].score < heap[first].score {
          first := right;
        }
        if first == i {
          ChildrenNotSmaller(heap, i);
          break;
        }
        SwapWithSmallerChild(heap, i, first);
        SwapAt(i, first);
        i := first;
      }
    }

    /** Exchanges two slots; nothing else changes. */
    method SwapAt(i: nat, j: nat)
      requires i < |heap| && j < |heap|
      modifies this
      ensures heap == old(heap)[i := old(heap)[j]][j := old(heap)[i]]
      ensures multiset(heap) == old(multiset(heap))
    {
      var temp := heap[i];
      heap := heap[i := heap[j]];
      heap := heap[j := temp];
    }
  }
}
