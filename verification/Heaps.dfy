/** The binary heap of Go's container/heap, as used by the nonce index and the price index
    of the transaction pool. A heap lives in a sequence; `less` is the caller's ordering. */
module Heaps {
  /** What container/heap needs of `less`: a strict weak ordering. */
  ghost predicate StrictWeak<T(!new)>(less: (T, T) -> bool) {
    && (forall a, b :: less(a, b) ==> !less(b, a))
    && (forall a, b, c :: !less(a, b) && !less(b, c) ==> !less(a, c))
  }

  function Parent(i: int): int { (i - 1) / 2 }

  /** Every element whose parent is at `lo` or above it ranks no lower than that parent. */
  ghost predicate HeapFrom<T>(h: seq<T>, less: (T, T) -> bool, lo: int) {
    forall i {:trigger Parent(i)} :: 0 < i < |h| && lo <= Parent(i) ==> !less(h[i], h[Parent(i)])
  }

  ghost predicate IsHeap<T>(h: seq<T>, less: (T, T) -> bool) {
    HeapFrom(h, less, 0)
  }

  /** The heap order holds except between `j` and its parent. */
  ghost predicate BrokenUp<T>(h: seq<T>, less: (T, T) -> bool, j: int) {
    && (forall i {:trigger Parent(i)} :: 0 < i < |h| && i != j ==> !less(h[i], h[Parent(i)]))
    && (forall i {:trigger Parent(i)} :: 0 < j && 0 < i < |h| && Parent(i) == j ==> !less(h[i], h[Parent(j)]))
  }

  /** The heap order holds from `lo` except between `j` and its children. */
  ghost predicate BrokenDown<T>(h: seq<T>, less: (T, T) -> bool, lo: int, j: int) {
    && (forall i {:trigger Parent(i)} ::
          0 < i < |h| && lo <= Parent(i) && Parent(i) != j ==> !less(h[i], h[Parent(i)]))
    && (forall i {:trigger Parent(i)} ::
          0 < j && lo <= Parent(j) && 0 < i < |h| && Parent(i) == j ==> !less(h[i], h[Parent(j)]))
  }

  function Swap<T>(h: seq<T>, i: int, j: int): (r: seq<T>)
    requires 0 <= i < |h| && 0 <= j < |h|
    ensures multiset(r) == multiset(h)
  {
    h[i := h[j]][j := h[i]]
  }

  lemma SwapUp<T(!new)>(h: seq<T>, less: (T, T) -> bool, j: int)
    requires StrictWeak(less) && 0 < j < |h| && BrokenUp(h, less, j)
    requires less(h[j], h[Parent(j)])
    ensures BrokenUp(Swap(h, Parent(j), j), less, Parent(j))
  {
    var p := Parent(j);
    var g := Swap(h, p, j);
    forall i {:trigger Parent(i)} | 0 < i < |g| && i != p
      ensures !less(g[i], g[Parent(i)])
    {
      if i == j {
      } else if Parent(i) == j {
        assert !less(h[i], h[p]);
      } else if Parent(i) == p {
        assert !less(h[i], h[p]);
      }
    }
    if 0 < p {
      forall i {:trigger Parent(i)} | 0 < i < |g| && Parent(i) == p
        ensures !less(g[i], g[Parent(p)])
      {
        assert !less(h[p], h[Parent(p)]);
        assert !less(h[i], h[p]) || i == j;
      }
    }
  }

  method Up<T(!new)>(h0: seq<T>, less: (T, T) -> bool, j0: int) returns (h: seq<T>)
    requires StrictWeak(less) && 0 <= j0 < |h0| && BrokenUp(h0, less, j0)
    ensures IsHeap(h, less) && multiset(h) == multiset(h0) && |h| == |h0|
  {
    h := h0;
    var j := j0;
    while 0 < j && less(h[j], h[Parent(j)])
      invariant 0 <= j < |h| == |h0|
      invariant BrokenUp(h, less, j)
      invariant multiset(h) == multiset(h0)
      decreases j
    {
      var p := Parent(j);
      SwapUp(h, less, j);
      h := Swap(h, p, j);
      j := p;
    }
  }

  /** The child of `i` that ranks lower. */
  function LesserChild<T>(h: seq<T>, less: (T, T) -> bool, i: int): (j: int)
    requires 0 <= i && 2 * i + 1 < |h|
  {
    if 2 * i + 2 < |h| && less(h[2 * i + 2], h[2 * i + 1]) then 2 * i + 2 else 2 * i + 1
  }

  lemma NoChildren<T(!new)>(h: seq<T>, less: (T, T) -> bool, lo: int, i: int)
    requires 0 <= lo <= i && BrokenDown(h, less, lo, i) && |h| <= 2 * i + 1
    ensures HeapFrom(h, less, lo)
  {
    forall k {:trigger Parent(k)} | 0 < k < |h| ensures Parent(k) != i { }
  }

  ghost predicate BestChild<T>(h: seq<T>, less: (T, T) -> bool, i: int, j: int) {
    && 0 <= i < |h| && 0 <= j < |h| && (j == 2 * i + 1 || j == 2 * i + 2)
    && (2 * i + 1 < |h| && !less(h[2 * i + 1], h[j]))
    && (2 * i + 2 < |h| ==> !less(h[2 * i + 2], h[j]))
  }

  lemma LesserChildIsBest<T(!new)>(h: seq<T>, less: (T, T) -> bool, i: int)
    requires StrictWeak(less) && 0 <= i && 2 * i + 1 < |h|
    ensures BestChild(h, less, i, LesserChild(h, less, i))
  {
  }

  lemma ChildrenOf<T(!new)>(h: seq<T>, less: (T, T) -> bool, lo: int, i: int, j: int)
    requires StrictWeak(less) && 0 <= lo <= i && BrokenDown(h, less, lo, i)
    requires BestChild(h, less, i, j) && !less(h[j], h[i])
    ensures HeapFrom(h, less, lo)
  {
    forall k {:trigger Parent(k)} | 0 < k < |h| && lo <= Parent(k)
      ensures !less(h[k], h[Parent(k)])
    {
      if Parent(k) == i { assert k == 2 * i + 1 || k == 2 * i + 2; }
    }
  }

  lemma SwapDown<T(!new)>(h: seq<T>, less: (T, T) -> bool, lo: int, i: int, j: int)
    requires StrictWeak(less) && 0 <= lo <= i && BrokenDown(h, less, lo, i)
    requires BestChild(h, less, i, j) && less(h[j], h[i])
    ensures BrokenDown(Swap(h, i, j), less, lo, j)
  {
    var g := Swap(h, i, j);
    assert Parent(j) == i;
    forall k {:trigger Parent(k)} | 0 < k < |g| && lo <= Parent(k) && Parent(k) != j
      ensures !less(g[k], g[Parent(k)])
    {
      if k == i {
        assert !less(h[j], h[Parent(i)]);
      } else if Parent(k) == i {
        assert k == 2 * i + 1 || k == 2 * i + 2;
      }
    }
    forall k {:trigger Parent(k)} | 0 < k < |g| && Parent(k) == j
      ensures !less(g[k], g[Parent(j)])
    {
    }
  }

  /** container/heap's `down`; the flag says whether the element moved. */
  method Down<T(!new)>(h0: seq<T>, less: (T, T) -> bool, ghost lo: int, i0: int) returns (h: seq<T>, moved: bool)
    requires StrictWeak(less) && 0 <= lo <= i0 && BrokenDown(h0, less, lo, i0)
    ensures |h| == |h0| && multiset(h) == multiset(h0)
    ensures HeapFrom(h, less, lo)
    ensures moved ==> exists j :: 2 * i0 + 1 <= j <= 2 * i0 + 2 && j < |h0| && less(h0[j], h0[i0])
    ensures !moved ==> h == h0
  {
    h := h0;
    var i := i0;
    moved := false;
    while 2 * i + 1 < |h|
      invariant i0 <= i && |h| == |h0|
      invariant BrokenDown(h, less, lo, i)
      invariant multiset(h) == multiset(h0)
      invariant moved ==> exists j :: 2 * i0 + 1 <= j <= 2 * i0 + 2 && j < |h0| && less(h0[j], h0[i0])
      invariant !moved ==> h == h0 && i == i0
      decreases |h| - i
    {
      var j := LesserChild(h, less, i);
      LesserChildIsBest(h, less, i);
      if !less(h[j], h[i]) {
        ChildrenOf(h, less, lo, i, j);
        return;
      }
      SwapDown(h, less, lo, i, j);
      h, i, moved := Swap(h, i, j), j, true;
    }
    NoChildren(h, less, lo, i);
  }

  /** The root of a heap ranks no higher than any element. */
  lemma {:induction false} RootIsLeast<T(!new)>(h: seq<T>, less: (T, T) -> bool, i: int)
    requires StrictWeak(less) && IsHeap(h, less) && 0 <= i < |h|
    ensures !less(h[i], h[0])
    decreases i
  {
    if i == 0 {
      assert !less(h[0], h[0]);
    } else {
      RootIsLeast(h, less, Parent(i));
    }
  }

  method Push<T(!new)>(h: seq<T>, less: (T, T) -> bool, x: T) returns (r: seq<T>)
    requires StrictWeak(less) && IsHeap(h, less)
    ensures IsHeap(r, less) && multiset(r) == multiset(h) + multiset{x}
  {
    r := Up(h + [x], less, |h|);
  }

  /** Removes the least element. */
  method Pop<T(!new)>(h: seq<T>, less: (T, T) -> bool) returns (r: seq<T>, x: T)
    requires StrictWeak(less) && IsHeap(h, less) && |h| > 0
    ensures IsHeap(r, less) && multiset(r) + multiset{x} == multiset(h)
    ensures x == h[0] && forall y :: y in h ==> !less(y, x)
  {
    var n := |h| - 1;
    var s := Swap(h, 0, n);
    x := s[n];
    assert s == s[..n] + [x];
    var moved;
    r, moved := Down(s[..n], less, 0, 0);
    forall y | y in h ensures !less(y, x) {
      var i :| 0 <= i < |h| && h[i] == y;
      RootIsLeast(h, less, i);
    }
  }

  lemma HeapBrokenUp<T(!new)>(h: seq<T>, less: (T, T) -> bool, j: int)
    requires StrictWeak(less) && HeapFrom(h, less, 0) && 0 <= j < |h|
    ensures BrokenUp(h, less, j)
  {
  }

  lemma RemovedBroken<T(!new)>(h: seq<T>, less: (T, T) -> bool, i: int)
    requires StrictWeak(less) && IsHeap(h, less) && 0 <= i < |h| - 1
    ensures var t := Swap(h, i, |h| - 1)[..|h| - 1];
            if 0 < i && less(t[i], t[Parent(i)]) then
              BrokenUp(t, less, i) && BrokenDown(t, less, i, i)
              && forall j :: 2 * i + 1 <= j <= 2 * i + 2 && j < |t| ==> !less(t[j], t[i])
            else BrokenDown(t, less, 0, i)
  {
    var t := Swap(h, i, |h| - 1)[..|h| - 1];
    forall j | 2 * i + 1 <= j <= 2 * i + 2 && j < |t| && 0 < i
      ensures !less(t[j], t[Parent(i)])
    {
      assert Parent(j) == i;
    }
  }

  /** Removes the element at position `i`. */
  method Remove<T(!new)>(h: seq<T>, less: (T, T) -> bool, i: int) returns (r: seq<T>)
    requires StrictWeak(less) && IsHeap(h, less) && 0 <= i < |h|
    ensures IsHeap(r, less) && multiset(r) + multiset{h[i]} == multiset(h)
  {
    var n := |h| - 1;
    if i == n {
      assert h == h[..n] + [h[n]];
      return h[..n];
    }
    hide StrictWeak, BrokenUp, BrokenDown, HeapFrom;
    var s := Swap(h, i, n);
    assert s == s[..n] + [s[n]];
    var t := s[..n];
    RemovedBroken(h, less, i);
    ghost var lo := if 0 < i && less(t[i], t[Parent(i)]) then i else 0;
    var moved;
    r, moved := Down(t, less, lo, i);
    if !moved {
      if lo == 0 { HeapBrokenUp(t, less, i); }
      r := Up(t, less, i);
    }
  }

  /** container/heap's Init. */
  method Init<T(!new)>(h: seq<T>, less: (T, T) -> bool) returns (r: seq<T>)
    requires StrictWeak(less)
    ensures IsHeap(r, less) && multiset(r) == multiset(h)
  {
    r := h;
    var i := |h| / 2;
    while 0 < i
      invariant 0 <= i && |r| == |h|
      invariant multiset(r) == multiset(h)
      invariant HeapFrom(r, less, i)
    {
      i := i - 1;
      var moved;
      r, moved := Down(r, less, i, i);
    }
  }
}
