/** An array heap over any comparator: the specification functions and what they keep. */
module BinaryHeap {

  /** `less` is asymmetric and incomparability under it is transitive. */
  ghost predicate StrictWeakOrder<T(!new)>(less: (T, T) -> bool) {
    && (forall a, b :: less(a, b) ==> !less(b, a))
    && (forall a, b, c :: less(a, c) ==> less(a, b) || less(b, c))
  }

  function Parent(i: nat): nat
    requires i > 0
  {
    (i - 1) / 2
  }

  /** No element comes before its parent. */
  predicate Ordered<T>(less: (T, T) -> bool, h: seq<T>) {
    forall i {:trigger h[i]} :: 0 < i < |h| ==> !less(h[i], h[Parent(i)])
  }

  function Swap<T>(h: seq<T>, i: nat, j: nat): seq<T>
    requires i < |h| && j < |h|
  {
    h[i := h[j]][j := h[i]]
  }

  function Bubble<T>(less: (T, T) -> bool, h: seq<T>, i: nat): (g: seq<T>)
    requires i < |h|
    ensures |g| == |h|
    decreases i
  {
    if i == 0 || less(h[Parent(i)], h[i]) then h
    else Bubble(less, Swap(h, i, Parent(i)), Parent(i))
  }

  /** The child that must not stay below the other one. */
  function FirstChild<T>(less: (T, T) -> bool, h: seq<T>, i: nat): (c: nat)
    requires 2 * i + 1 < |h|
    ensures c < |h| && (c == 2 * i + 1 || c == 2 * i + 2)
  {
    if 2 * i + 2 < |h| && less(h[2 * i + 2], h[2 * i + 1]) then 2 * i + 2 else 2 * i + 1
  }

  function Sink<T>(less: (T, T) -> bool, h: seq<T>, i: nat): (g: seq<T>)
    requires i < |h|
    ensures |g| == |h|
    decreases |h| - i
  {
    if 2 * i + 1 >= |h| then h
    else
      var c := FirstChild(less, h, i);
      if less(h[i], h[c]) then h else Sink(less, Swap(h, i, c), c)
  }

  function Insert<T>(less: (T, T) -> bool, h: seq<T>, e: T): (g: seq<T>)
    ensures |g| == |h| + 1
  {
    Bubble(less, h + [e], |h|)
  }

  /** Overwrites position `i` by the last element. */
  function Plug<T>(h: seq<T>, i: nat): (g: seq<T>)
    requires i < |h| - 1
    ensures |g| == |h| - 1
  {
    h[..|h| - 1][i := h[|h| - 1]]
  }

  /** Removes the element at position `i`, wherever it sits. */
  function RemoveAt<T>(less: (T, T) -> bool, h: seq<T>, i: nat): (g: seq<T>)
    requires i < |h|
    ensures |g| == |h| - 1
  {
    if i == |h| - 1 then h[..i]
    else
      var g := Plug(h, i);
      if i > 0 && !less(g[Parent(i)], g[i]) then Bubble(less, g, i) else Sink(less, g, i)
  }

  // ---------- Contents, under any comparator ----------

  lemma SwapPermutes<T>(h: seq<T>, i: nat, j: nat)
    requires i < |h| && j < |h|
    ensures multiset(Swap(h, i, j)) == multiset(h)
  {
    var g := h[i := h[j]];
    assert multiset(g) == multiset(h) - multiset{h[i]} + multiset{h[j]};
    assert multiset(g[j := h[i]]) == multiset(g) - multiset{g[j]} + multiset{h[i]};
  }

  lemma {:induction false} BubblePermutes<T>(less: (T, T) -> bool, h: seq<T>, i: nat)
    requires i < |h|
    ensures multiset(Bubble(less, h, i)) == multiset(h)
    decreases i
  {
    if i > 0 && !less(h[Parent(i)], h[i]) {
      SwapPermutes(h, i, Parent(i));
      BubblePermutes(less, Swap(h, i, Parent(i)), Parent(i));
    }
  }

  lemma {:induction false} SinkPermutes<T>(less: (T, T) -> bool, h: seq<T>, i: nat)
    requires i < |h|
    ensures multiset(Sink(less, h, i)) == multiset(h)
    decreases |h| - i
  {
    if 2 * i + 1 < |h| {
      var c := FirstChild(less, h, i);
      if !less(h[i], h[c]) {
        SwapPermutes(h, i, c);
        SinkPermutes(less, Swap(h, i, c), c);
      }
    }
  }

  lemma InsertAdds<T>(less: (T, T) -> bool, h: seq<T>, e: T)
    ensures multiset(Insert(less, h, e)) == multiset(h) + multiset{e}
  {
    BubblePermutes(less, h + [e], |h|);
  }

  lemma PlugRemoves<T>(h: seq<T>, i: nat)
    requires i < |h| - 1
    ensures multiset(Plug(h, i)) == multiset(h) - multiset{h[i]}
  {
    var n := |h| - 1;
    assert h == h[..i] + [h[i]] + h[i + 1..n] + [h[n]];
    assert Plug(h, i) == h[..i] + [h[n]] + h[i + 1..n];
  }

  /** Removal takes out the element at `i` and nothing else. */
  lemma RemoveAtRemoves<T>(less: (T, T) -> bool, h: seq<T>, i: nat)
    requires i < |h|
    ensures multiset(RemoveAt(less, h, i)) == multiset(h) - multiset{h[i]}
  {
    if i == |h| - 1 {
      assert h == h[..i] + [h[i]];
    } else {
      var g := Plug(h, i);
      PlugRemoves(h, i);
      if i > 0 && !less(g[Parent(i)], g[i]) {
        BubblePermutes(less, g, i);
      } else {
        SinkPermutes(less, g, i);
      }
    }
  }

  // ---------- Heap order ----------

  /** Ordered but for the edge above `i`; the children of `i` still fit below its parent. */
  ghost predicate OrderedButAbove<T>(less: (T, T) -> bool, h: seq<T>, i: nat)
    requires i < |h|
  {
    && (forall j {:trigger h[j]} :: 0 < j < |h| && j != i ==> !less(h[j], h[Parent(j)]))
    && (forall j {:trigger h[j]} :: 0 < j < |h| && Parent(j) == i && i > 0 ==> !less(h[j], h[Parent(i)]))
  }

  /** Ordered but for the edges below `i`; the children of `i` still fit below its parent. */
  ghost predicate OrderedButBelow<T>(less: (T, T) -> bool, h: seq<T>, i: nat)
    requires i < |h|
  {
    && (forall j {:trigger h[j]} :: 0 < j < |h| && Parent(j) != i ==> !less(h[j], h[Parent(j)]))
    && (forall j {:trigger h[j]} :: 0 < j < |h| && Parent(j) == i && i > 0 ==> !less(h[j], h[Parent(i)]))
  }

  lemma {:induction false} BubbleOrders<T(!new)>(less: (T, T) -> bool, h: seq<T>, i: nat)
    requires StrictWeakOrder(less)
    requires i < |h| && OrderedButAbove(less, h, i)
    ensures Ordered(less, Bubble(less, h, i))
    decreases i
  {
    if i > 0 && !less(h[Parent(i)], h[i]) {
      var p := Parent(i);
      var g := Swap(h, i, p);
      forall j | 0 < j < |g| && j != p
        ensures !less(g[j], g[Parent(j)])
      {
        if j == i {
        } else if Parent(j) == i {
          assert g[j] == h[j] && g[i] == h[p];
        } else if Parent(j) == p {
          assert g[j] == h[j] && g[p] == h[i];
          assert !less(h[j], h[p]) && !less(h[p], h[i]);
        } else {
          assert g[j] == h[j] && g[Parent(j)] == h[Parent(j)];
        }
      }
      forall j | 0 < j < |g| && Parent(j) == p && p > 0
        ensures !less(g[j], g[Parent(p)])
      {
        assert !less(h[p], h[Parent(p)]);
        if j != i {
          assert !less(h[j], h[p]);
        }
      }
      BubbleOrders(less, g, p);
    }
  }

  lemma {:induction false} SinkOrders<T(!new)>(less: (T, T) -> bool, h: seq<T>, i: nat)
    requires StrictWeakOrder(less)
    requires i < |h| && OrderedButBelow(less, h, i)
    ensures Ordered(less, Sink(less, h, i))
    decreases |h| - i
  {
    if 2 * i + 1 < |h| {
      var c := FirstChild(less, h, i);
      assert Parent(c) == i;
      var other := if c == 2 * i + 1 then 2 * i + 2 else 2 * i + 1;
      assert forall j :: 0 < j < |h| && Parent(j) == i ==> j == c || j == other;
      if less(h[i], h[c]) {
      } else {
        var g := Swap(h, i, c);
        forall j | 0 < j < |g| && Parent(j) != c
          ensures !less(g[j], g[Parent(j)])
        {
          if j == i {
            assert !less(h[c], h[Parent(i)]);
          } else if j == c {
          } else if j == other {
          } else {
            assert g[j] == h[j] && g[Parent(j)] == h[Parent(j)];
          }
        }
        forall j | 0 < j < |g| && Parent(j) == c && c > 0
          ensures !less(g[j], g[Parent(c)])
        {
          assert g[j] == h[j] && g[i] == h[c];
        }
        SinkOrders(less, g, c);
      }
    }
  }

  lemma InsertOrders<T(!new)>(less: (T, T) -> bool, h: seq<T>, e: T)
    requires StrictWeakOrder(less) && Ordered(less, h)
    ensures Ordered(less, Insert(less, h, e))
  {
    BubbleOrders(less, h + [e], |h|);
  }

  /** Removal from any position, not only the root, keeps the order. */
  lemma RemoveAtOrders<T(!new)>(less: (T, T) -> bool, h: seq<T>, i: nat)
    requires StrictWeakOrder(less) && Ordered(less, h) && i < |h|
    ensures Ordered(less, RemoveAt(less, h, i))
  {
    if i < |h| - 1 {
      var g := Plug(h, i);
      forall j | 0 < j < |g| && Parent(j) == i && i > 0
        ensures !less(g[j], g[Parent(i)])
      {
        assert !less(h[j], h[i]) && !less(h[i], h[Parent(i)]);
      }
      if i > 0 && !less(g[Parent(i)], g[i]) {
        forall j | 0 < j < |g| && j != i
          ensures !less(g[j], g[Parent(j)])
        {
          assert g[j] == h[j];
          if Parent(j) == i {
            assert !less(h[j], h[i]) && !less(h[i], h[Parent(i)]);
            assert !less(g[Parent(i)], g[i]);
          }
        }
        BubbleOrders(less, g, i);
      } else {
        SinkOrders(less, g, i);
      }
    }
  }

  lemma {:induction false} RootIsLeast<T(!new)>(less: (T, T) -> bool, h: seq<T>, i: nat)
    requires StrictWeakOrder(less) && Ordered(less, h) && i < |h|
    ensures !less(h[i], h[0])
    decreases i
  {
    if i > 0 {
      RootIsLeast(less, h, Parent(i));
      assert !less(h[i], h[Parent(i)]);
    }
  }
}
