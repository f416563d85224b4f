/** Strings with an expiry time in a binary heap: p2p/util.go, with the sift operations of container/heap. */
module ExpHeaps {
  import opened Words

  datatype Id = Id(key: nat)

  lemma {:induction false} Subset(a: set<Id>, b: set<Id>)
    requires a <= b
    ensures |a| <= |b|
    decreases a
  {
    if a != {} {
      var x :| x in a;
      Subset(a - {x}, b - {x});
    }
  }

  datatype ExpItem = ExpItem(item: Id, exp: int)

  // ----- Heap order on sequences -----

  function Parent(k: int): int { (k - 1) / 2 }

  // Every element but j is not below its parent.
  ghost predicate HeapExcept(h: seq<ExpItem>, j: int) {
    forall k {:trigger h[k]} :: 0 < k < |h| && k != j ==> h[Parent(k)].exp <= h[k].exp
  }

  // Every element whose parent is not i is not below its parent.
  ghost predicate HeapBelow(h: seq<ExpItem>, n: nat, i: int)
    requires n <= |h|
  {
    forall k {:trigger h[k]} :: 0 < k < n && Parent(k) != i ==> h[Parent(k)].exp <= h[k].exp
  }

  // The elements with parent j are not below the parent of j.
  ghost predicate Bridged(h: seq<ExpItem>, n: nat, j: int)
    requires n <= |h|
  {
    forall k {:trigger h[k]} :: 0 < k < n && Parent(k) == j && 0 < j ==> h[Parent(j)].exp <= h[k].exp
  }

  ghost predicate Heap(h: seq<ExpItem>) {
    forall k {:trigger h[k]} :: 0 < k < |h| ==> h[Parent(k)].exp <= h[k].exp
  }

  lemma {:induction false} RootMin(h: seq<ExpItem>, k: nat)
    requires Heap(h) && k < |h|
    ensures h[0].exp <= h[k].exp
    decreases k
  {
    if k > 0 {
      RootMin(h, Parent(k));
    }
  }

  function Swap(h: seq<ExpItem>, i: nat, j: nat): seq<ExpItem>
    requires i < |h| && j < |h|
  {
    h[i := h[j]][j := h[i]]
  }

  lemma SwapMultiset(h: seq<ExpItem>, i: nat, j: nat)
    requires i < |h| && j < |h|
    ensures multiset(Swap(h, i, j)) == multiset(h)
  {
  }

  // up(j): moves an element towards the root.
  method Up(h0: seq<ExpItem>, j0: nat) returns (h: seq<ExpItem>)
    requires j0 < |h0| && HeapExcept(h0, j0) && Bridged(h0, |h0|, j0)
    ensures Heap(h) && multiset(h) == multiset(h0)
  {
    h := h0;
    var j := j0;
    while j > 0 && h[j].exp < h[Parent(j)].exp
      invariant j < |h| == |h0| && HeapExcept(h, j) && Bridged(h, |h|, j) && multiset(h) == multiset(h0)
    {
      SwapMultiset(h, Parent(j), j);
      UpStep(h, j);
      h := Swap(h, Parent(j), j);
      j := Parent(j);
    }
  }

  lemma UpStep(h: seq<ExpItem>, j: nat)
    requires 0 < j < |h| && HeapExcept(h, j) && Bridged(h, |h|, j) && h[j].exp < h[Parent(j)].exp
    ensures HeapExcept(Swap(h, Parent(j), j), Parent(j)) && Bridged(Swap(h, Parent(j), j), |h|, Parent(j))
  {
  }

  // down(i, n): moves an element away from the root, within the first n.
  method Down(h0: seq<ExpItem>, n: nat) returns (h: seq<ExpItem>)
    requires n <= |h0| && HeapBelow(h0, n, 0)
    ensures |h| == |h0| && Heap(h[..n]) && multiset(h[..n]) == multiset(h0[..n]) && h[n..] == h0[n..]
  {
    hide HeapBelow, Bridged, Swap, Heap;
    h := h0;
    var i := 0;
    NoParent(h, n);
    while 2 * i + 1 < n
      invariant |h| == |h0| && 0 <= i && HeapBelow(h, n, i) && Bridged(h, n, i)
      invariant multiset(h[..n]) == multiset(h0[..n]) && h[n..] == h0[n..]
      decreases n - i
    {
      var j := 2 * i + 1;
      if j + 1 < n && h[j + 1].exp < h[j].exp {
        j := j + 1;
      }
      if h[j].exp >= h[i].exp {
        DownStop(h, n, i);
        return;
      }
      DownStep(h, n, i, j);
      SwapWithin(h, n, i, j);
      h := Swap(h, i, j);
      i := j;
    }
    DownStop(h, n, i);
  }

  // Nothing below i is smaller, so the first n are in order.
  lemma DownStop(h: seq<ExpItem>, n: nat, i: nat)
    requires n <= |h| && HeapBelow(h, n, i)
    requires 2 * i + 1 < n ==> h[i].exp <= h[2 * i + 1].exp
    requires 2 * i + 2 < n ==> h[i].exp <= h[2 * i + 2].exp
    ensures Heap(h[..n])
  {
  }

  lemma NoParent(h: seq<ExpItem>, n: nat)
    requires n <= |h|
    ensures Bridged(h, n, 0)
  {
  }

  lemma SwapWithin(h: seq<ExpItem>, n: nat, i: nat, j: nat)
    requires i < n && j < n && n <= |h|
    ensures |Swap(h, i, j)| == |h| && multiset(Swap(h, i, j)[..n]) == multiset(h[..n]) && Swap(h, i, j)[n..] == h[n..]
  {
  }

  lemma DownStep(h: seq<ExpItem>, n: nat, i: nat, j: nat)
    requires n <= |h| && HeapBelow(h, n, i) && Bridged(h, n, i)
    requires j < n && (j == 2 * i + 1 || j == 2 * i + 2) && h[j].exp < h[i].exp
    requires 2 * i + 1 < n && h[j].exp <= h[2 * i + 1].exp && (2 * i + 2 < n ==> h[j].exp <= h[2 * i + 2].exp)
    ensures HeapBelow(Swap(h, i, j), n, j) && Bridged(Swap(h, i, j), n, j)
  {
    var g := Swap(h, i, j);
    forall k {:trigger g[k]} | 0 < k < n && Parent(k) != j
      ensures g[Parent(k)].exp <= g[k].exp
    {
      if Parent(k) == i {
        assert k == 2 * i + 1 || k == 2 * i + 2;
      } else {
        assert h[Parent(k)].exp <= h[k].exp;
        if k == i {
          assert h[Parent(i)].exp <= h[j].exp;
        }
      }
    }
    forall k {:trigger g[k]} | 0 < k < n && Parent(k) == j && 0 < j
      ensures g[Parent(j)].exp <= g[k].exp
    {
      assert Parent(j) == i;
      assert h[j].exp <= h[k].exp;
    }
  }

  // ----- The heap -----

  // Each id occurs at most once.
  ghost predicate Distinct(m: multiset<ExpItem>) {
    && (forall x <- m :: m[x] == 1)
    && (forall x, y :: x in m && y in m && x.item == y.item ==> x == y)
  }

  class ExpHeap {
    var h: seq<ExpItem>

    ghost predicate Valid()
      reads this
    {
      Heap(h)
    }

    constructor ()
      ensures Valid() && h == []
    {
      h := [];
    }

    // nextExpiry: the least expiry time in the heap.
    function NextExpiry(): (exp: int)
      requires Valid() && h != []
      reads this
      ensures forall x <- h :: exp <= x.exp
    {
      assert forall k :: 0 <= k < |h| ==> h[0].exp <= h[k].exp by {
        forall k | 0 <= k < |h| ensures h[0].exp <= h[k].exp { RootMin(h, k); }
      }
      h[0].exp
    }

    method Add(item: Id, exp: int)
      requires Valid()
      modifies this
      ensures Valid() && multiset(h) == multiset(old(h)) + multiset{ExpItem(item, exp)}
    {
      h := h + [ExpItem(item, exp)];
      h := Up(h, |h| - 1);
    }

    method Contains(item: Id) returns (found: bool)
      ensures found <==> exists x <- h :: x.item == item
    {
      var i := 0;
      while i < |h|
        invariant 0 <= i <= |h| && forall k :: 0 <= k < i ==> h[k].item != item
      {
        if h[i].item == item {
          return true;
        }
        i := i + 1;
      }
      found := false;
    }

    // heap.Pop: takes out an item of least expiry time.
    method PopMin() returns (x: ExpItem)
      requires Valid() && h != []
      modifies this
      ensures Valid() && x in old(h) && multiset(h) == multiset(old(h)) - multiset{x}
      ensures forall y <- old(h) :: x.exp <= y.exp
      ensures |h| == |old(h)| - 1
    {
      var n := |h| - 1;
      x := h[0];
      var next := NextExpiry();
      PopSwap(h);
      h := Swap(h, 0, n);
      h := Down(h, n);
      assert h[n..] == [x];
      h := h[..n];
    }

    // expire: takes out exactly the items whose expiry time is before now.
    method Expire(now: int) returns (expired: seq<ExpItem>)
      requires Valid()
      modifies this
      ensures Valid() && multiset(h) + multiset(expired) == multiset(old(h))
      ensures (forall x <- expired :: x.exp < now) && (forall x <- h :: now <= x.exp)
    {
      hide Heap;
      expired := [];
      while |h| > 0 && NextExpiry() < now
        invariant Valid() && multiset(h) + multiset(expired) == multiset(old(h))
        invariant forall x <- expired :: x.exp < now
        decreases |h|
      {
        ghost var before := h;
        var next := NextExpiry();
        var x := PopMin();
        Moved(before, h, x, expired);
        expired := expired + [x];
      }
      if |h| > 0 {
        var next := NextExpiry();
      }
    }
  }

  lemma Moved(before: seq<ExpItem>, after: seq<ExpItem>, x: ExpItem, expired: seq<ExpItem>)
    requires x in before && multiset(after) == multiset(before) - multiset{x}
    ensures multiset(after) + multiset(expired + [x]) == multiset(before) + multiset(expired)
  {
  }

  lemma PopSwap(h: seq<ExpItem>)
    requires Heap(h) && h != []
    ensures var n := |h| - 1; var g := Swap(h, 0, n);
            HeapBelow(g, n, 0) && g[n..] == [h[0]] && multiset(g[..n]) == multiset(h) - multiset{h[0]}
  {
    var n := |h| - 1;
    var g := Swap(h, 0, n);
    forall k {:trigger g[k]} | 0 < k < n && Parent(k) != 0
      ensures g[Parent(k)].exp <= g[k].exp
    {
      assert h[Parent(k)].exp <= h[k].exp;
    }
    SwapMultiset(h, 0, n);
    assert g == g[..n] + [g[n]];
  }
}
