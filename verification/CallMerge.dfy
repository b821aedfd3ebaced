/**
 The greedy merge that collects the events (or the L2-to-L1 messages) of a call tree.

 Every item carries the order in which the contract code produced it.  The pallet
 walks the tree once: in each call it takes the call's own next item as long as that
 item has the order it expects, and otherwise descends into the next inner call.  The
 same walk is written twice in the pallet, once for events and once for messages, so
 the tree here is generic in the item.
 */
module CallMerge {

  datatype Ordered<T> = Ordered(order: nat, content: T)

  /** An item as it is stored: the address of the emitting contract joined to the content. */
  datatype Emitted<A, T> = Emitted(order: nat, from: A, content: T)

  datatype Call<A, T> = Call(address: A, items: seq<Ordered<T>>, inner: seq<Call<A, T>>)

  function Emit<A, T>(c: Call<A, T>, i: nat): Emitted<A, T>
    requires i < |c.items|
  {
    Emitted(c.items[i].order, c.address, c.items[i].content)
  }

  // ---------------------------------------------------------------------------
  // The walk
  // ---------------------------------------------------------------------------

  /** What the walk of `c` still emits, and the order it expects next, once it has taken
      `i` own items and visited `j` inner calls and expects order `n`. */
  function Walk<A, T>(c: Call<A, T>, i: nat, j: nat, n: nat): (r: (seq<Emitted<A, T>>, nat))
    requires i <= |c.items| && j <= |c.inner|
    decreases c, |c.items| - i + |c.inner| - j
  {
    if i < |c.items| && c.items[i].order == n then
      var (out, m) := Walk(c, i + 1, j, n + 1);
      ([Emit(c, i)] + out, m)
    else if j < |c.inner| then
      var (sub, k) := Walk(c.inner[j], 0, 0, n);
      var (out, m) := Walk(c, i, j + 1, k);
      (sub + out, m)
    else
      ([], n)
  }

  function Merge<A, T>(c: Call<A, T>, start: nat): (r: (seq<Emitted<A, T>>, nat)) {
    Walk(c, 0, 0, start)
  }

  /** The loop of the pallet: appends to the list kept for the transaction. */
  method MergeInto<A, T>(c: Call<A, T>, start: nat, stored: seq<Emitted<A, T>>)
      returns (stored': seq<Emitted<A, T>>, nextOrder: nat)
    ensures stored' == stored + Merge(c, start).0
    ensures nextOrder == Merge(c, start).1
    decreases c
  {
    var itemIdx, innerIdx := 0, 0;
    stored', nextOrder := stored, start;
    while true
      invariant itemIdx <= |c.items| && innerIdx <= |c.inner|
      invariant stored' + Walk(c, itemIdx, innerIdx, nextOrder).0 == stored + Merge(c, start).0
      invariant Walk(c, itemIdx, innerIdx, nextOrder).1 == Merge(c, start).1
      decreases |c.items| - itemIdx + |c.inner| - innerIdx
    {
      if itemIdx < |c.items| {
        if c.items[itemIdx].order == nextOrder {
          stored' := stored' + [Emit(c, itemIdx)];
          nextOrder := nextOrder + 1;
          itemIdx := itemIdx + 1;
          continue;
        }
      }
      if innerIdx < |c.inner| {
        stored', nextOrder := MergeInto(c.inner[innerIdx], nextOrder, stored');
        innerIdx := innerIdx + 1;
        continue;
      }
      break;
    }
  }

  // ---------------------------------------------------------------------------
  // What holds of every tree
  // ---------------------------------------------------------------------------

  /** All items of the tree, in an order that ignores the numbering. */
  function Items<A, T>(c: Call<A, T>): seq<Emitted<A, T>> {
    ItemsFrom(c, 0, 0)
  }

  function ItemsFrom<A, T>(c: Call<A, T>, i: nat, j: nat): seq<Emitted<A, T>>
    requires i <= |c.items| && j <= |c.inner|
    decreases c, |c.items| - i + |c.inner| - j
  {
    if i < |c.items| then [Emit(c, i)] + ItemsFrom(c, i + 1, j)
    else if j < |c.inner| then Items(c.inner[j]) + ItemsFrom(c, i, j + 1)
    else []
  }

  ghost predicate Consecutive<A, T>(out: seq<Emitted<A, T>>, from: nat) {
    forall k | 0 <= k < |out| :: out[k].order == from + k
  }

  function Count<A, T>(c: Call<A, T>): nat {
    |Items(c)|
  }

  /** Taking an inner call out before the remaining own items leaves the same items. */
  lemma {:induction false} ItemsSplit<A, T>(c: Call<A, T>, i: nat, j: nat)
    requires i <= |c.items| && j < |c.inner|
    ensures multiset(ItemsFrom(c, i, j)) == multiset(Items(c.inner[j])) + multiset(ItemsFrom(c, i, j + 1))
    ensures |ItemsFrom(c, i, j)| == Count(c.inner[j]) + |ItemsFrom(c, i, j + 1)|
    decreases |c.items| - i
  {
    if i < |c.items| {
      ItemsSplit(c, i + 1, j);
    }
  }

  /** On any tree the walk ends, emits the consecutive orders from the one it was given up
      to the one it returns, and emits no item more often than the tree holds it. */
  lemma {:induction false} WalkEmits<A, T>(c: Call<A, T>, i: nat, j: nat, n: nat)
    requires i <= |c.items| && j <= |c.inner|
    ensures WalkIsSound(c, i, j, n)
    decreases c, |c.items| - i + |c.inner| - j
  {
    if i < |c.items| && c.items[i].order == n {
      WalkEmits(c, i + 1, j, n + 1);
      EmitsOwn(c, i, j, n);
    } else if j < |c.inner| {
      WalkEmits(c.inner[j], 0, 0, n);
      WalkEmits(c, i, j + 1, Walk(c.inner[j], 0, 0, n).1);
      EmitsInner(c, i, j, n);
    }
  }

  ghost predicate WalkIsSound<A, T>(c: Call<A, T>, i: nat, j: nat, n: nat)
    requires i <= |c.items| && j <= |c.inner|
  {
    Emits(Walk(c, i, j, n).0, Walk(c, i, j, n).1, n, multiset(ItemsFrom(c, i, j)))
  }

  lemma {:induction false} EmitsOwn<A, T>(c: Call<A, T>, i: nat, j: nat, n: nat)
    requires i < |c.items| && j <= |c.inner| && c.items[i].order == n && WalkIsSound(c, i + 1, j, n + 1)
    ensures WalkIsSound(c, i, j, n)
  {
    var (rest, m) := Walk(c, i + 1, j, n + 1);
    OwnItemSplit(c, i, j);
    EmitsOne(Emit(c, i), n);
    EmitsBoth([Emit(c, i)], n + 1, n, multiset{Emit(c, i)}, rest, m, multiset(ItemsFrom(c, i + 1, j)));
  }

  lemma {:induction false} EmitsInner<A, T>(c: Call<A, T>, i: nat, j: nat, n: nat)
    requires i <= |c.items| && j < |c.inner| && !(i < |c.items| && c.items[i].order == n)
    requires WalkIsSound(c.inner[j], 0, 0, n) && WalkIsSound(c, i, j + 1, Walk(c.inner[j], 0, 0, n).1)
    ensures WalkIsSound(c, i, j, n)
  {
    var (inner, k) := Walk(c.inner[j], 0, 0, n);
    var (rest, m) := Walk(c, i, j + 1, k);
    ItemsSplit(c, i, j);
    EmitsBoth(inner, k, n, multiset(Items(c.inner[j])), rest, m, multiset(ItemsFrom(c, i, j + 1)));
  }

  ghost predicate Emits<A, T>(out: seq<Emitted<A, T>>, m: nat, n: nat, items: multiset<Emitted<A, T>>) {
    m == n + |out| && Consecutive(out, n) && multiset(out) <= items
  }

  lemma {:induction false} EmitsOne<A, T>(x: Emitted<A, T>, n: nat)
    requires x.order == n
    ensures Emits([x], n + 1, n, multiset{x})
  {
  }

  lemma {:induction false} EmitsBoth<A, T>(a: seq<Emitted<A, T>>, k: nat, n: nat, items: multiset<Emitted<A, T>>,
                                           b: seq<Emitted<A, T>>, m: nat, items': multiset<Emitted<A, T>>)
    requires Emits(a, k, n, items) && Emits(b, m, k, items')
    ensures Emits(a + b, m, n, items + items')
  {
    assert multiset(a + b) == multiset(a) + multiset(b);
  }

  lemma {:induction false} WalkBound<A, T>(c: Call<A, T>, i: nat, j: nat, n: nat)
    requires i <= |c.items| && j <= |c.inner|
    ensures Walk(c, i, j, n).1 <= n + |ItemsFrom(c, i, j)|
  {
    WalkEmits(c, i, j, n);
    SubMultisetSize(Walk(c, i, j, n).0, ItemsFrom(c, i, j));
  }

  lemma {:induction false} MergeEmits<A, T>(c: Call<A, T>, start: nat)
    ensures Emits(Merge(c, start).0, Merge(c, start).1, start, multiset(Items(c)))
  {
    WalkEmits(c, 0, 0, start);
  }

  // ---------------------------------------------------------------------------
  // Consecutively numbered trees
  // ---------------------------------------------------------------------------

  /** Some interleaving of the own items from `i` on with the inner calls from `j` on
      numbers every item consecutively from `n`. */
  ghost predicate NumberedFrom<A, T>(c: Call<A, T>, i: nat, j: nat, n: nat)
    requires i <= |c.items| && j <= |c.inner|
    decreases c, |c.items| - i + |c.inner| - j
  {
    || (i == |c.items| && j == |c.inner|)
    || (i < |c.items| && c.items[i].order == n && NumberedFrom(c, i + 1, j, n + 1))
    || (j < |c.inner| && Numbered(c.inner[j], n) && NumberedFrom(c, i, j + 1, n + Count(c.inner[j])))
  }

  ghost predicate Numbered<A, T>(c: Call<A, T>, start: nat)
    decreases c
  {
    NumberedFrom(c, 0, 0, start)
  }

  /** A tree without items is numbered from anywhere. */
  lemma {:induction false} EmptyNumbered<A, T>(c: Call<A, T>, i: nat, j: nat, n: nat)
    requires i <= |c.items| && j <= |c.inner|
    requires ItemsFrom(c, i, j) == []
    ensures NumberedFrom(c, i, j, n)
    decreases c, |c.items| - i + |c.inner| - j
  {
    if j < |c.inner| {
      ItemsSplit(c, i, j);
      EmptyNumbered(c.inner[j], 0, 0, n);
      EmptyNumbered(c, i, j + 1, n);
    }
  }

  lemma {:induction false} OwnItemSplit<A, T>(c: Call<A, T>, i: nat, j: nat)
    requires i < |c.items| && j <= |c.inner|
    ensures multiset(ItemsFrom(c, i, j)) == multiset{Emit(c, i)} + multiset(ItemsFrom(c, i + 1, j))
    ensures Emit(c, i).order == c.items[i].order
  {
  }

  lemma {:induction false} OrdersAtLeast<A, T>(c: Call<A, T>, i: nat, j: nat, n: nat)
    requires i <= |c.items| && j <= |c.inner|
    requires NumberedFrom(c, i, j, n)
    ensures AllAtLeast(multiset(ItemsFrom(c, i, j)), n)
    decreases c, |c.items| - i + |c.inner| - j
  {
    if i < |c.items| && c.items[i].order == n && NumberedFrom(c, i + 1, j, n + 1) {
      OrdersAtLeast(c, i + 1, j, n + 1);
      OwnItemSplit(c, i, j);
      AtLeastJoined(multiset{Emit(c, i)}, n, multiset(ItemsFrom(c, i + 1, j)), n + 1);
    } else if j < |c.inner| {
      OrdersAtLeast(c.inner[j], 0, 0, n);
      OrdersAtLeast(c, i, j + 1, n + Count(c.inner[j]));
      ItemsSplit(c, i, j);
      AtLeastJoined(multiset(Items(c.inner[j])), n, multiset(ItemsFrom(c, i, j + 1)), n + Count(c.inner[j]));
    }
  }

  ghost predicate AllAtLeast<A, T>(items: multiset<Emitted<A, T>>, n: nat) {
    forall e | e in items :: e.order >= n
  }

  lemma {:induction false} AtLeastJoined<A, T>(a: multiset<Emitted<A, T>>, n: nat, b: multiset<Emitted<A, T>>, m: nat)
    requires AllAtLeast(a, n) && AllAtLeast(b, m) && n <= m
    ensures AllAtLeast(a + b, n)
  {
  }

  lemma {:induction false} InnerIsEmpty<A, T>(c: Call<A, T>, i: nat, j: nat, n: nat)
    requires i < |c.items| && j < |c.inner| && c.items[i].order == n
    requires NumberedFrom(c, i, j + 1, n + Count(c.inner[j]))
    ensures Items(c.inner[j]) == []
  {
    OrdersAtLeast(c, i, j + 1, n + Count(c.inner[j]));
    OwnItemSplit(c, i, j + 1);
    assert Emit(c, i) in multiset(ItemsFrom(c, i, j + 1));
  }

  /** When the next own item has the expected order, taking it first is always right: an
      inner call that the numbering visits before it must be free of items. */
  lemma {:induction false} OwnItemFirst<A, T>(c: Call<A, T>, i: nat, j: nat, n: nat)
    requires i < |c.items| && j <= |c.inner| && c.items[i].order == n
    requires NumberedFrom(c, i, j, n)
    ensures NumberedFrom(c, i + 1, j, n + 1)
    decreases |c.inner| - j
  {
    if !NumberedFrom(c, i + 1, j, n + 1) {
      InnerIsEmpty(c, i, j, n);
      OwnItemFirst(c, i, j + 1, n);
      EmptyNumbered(c.inner[j], 0, 0, n + 1);
    }
  }

  lemma {:induction false} NumberedIsEmitted<A, T>(c: Call<A, T>, i: nat, j: nat, n: nat)
    requires i <= |c.items| && j <= |c.inner|
    requires NumberedFrom(c, i, j, n)
    ensures Walk(c, i, j, n).1 == n + |ItemsFrom(c, i, j)|
    decreases c, |c.items| - i + |c.inner| - j
  {
    if i < |c.items| && c.items[i].order == n {
      OwnItemFirst(c, i, j, n);
      NumberedIsEmitted(c, i + 1, j, n + 1);
    } else if j < |c.inner| {
      NumberedIsEmitted(c.inner[j], 0, 0, n);
      NumberedIsEmitted(c, i, j + 1, n + Count(c.inner[j]));
      ItemsSplit(c, i, j);
    }
  }

  lemma {:induction false} EmittedIsNumbered<A, T>(c: Call<A, T>, i: nat, j: nat, n: nat)
    requires i <= |c.items| && j <= |c.inner|
    requires Walk(c, i, j, n).1 == n + |ItemsFrom(c, i, j)|
    ensures NumberedFrom(c, i, j, n)
    decreases c, |c.items| - i + |c.inner| - j
  {
    if i < |c.items| && c.items[i].order == n {
      EmittedIsNumbered(c, i + 1, j, n + 1);
    } else if j < |c.inner| {
      WalkBound(c.inner[j], 0, 0, n);
      WalkBound(c, i, j + 1, Walk(c.inner[j], 0, 0, n).1);
      assert |ItemsFrom(c, i, j)| == Count(c.inner[j]) + |ItemsFrom(c, i, j + 1)| by {
        ItemsSplit(c, i, j);
      }
      EmittedIsNumbered(c.inner[j], 0, 0, n);
      EmittedIsNumbered(c, i, j + 1, n + Count(c.inner[j]));
    }
  }

  lemma {:induction false} SubMultisetSize<X>(a: seq<X>, b: seq<X>)
    requires multiset(a) <= multiset(b)
    ensures |a| <= |b|
    ensures |a| == |b| ==> multiset(a) == multiset(b)
  {
    var rest := multiset(b) - multiset(a);
    assert multiset(b) == multiset(a) + rest;
    assert |a| == |b| ==> rest == multiset{};
  }

  /** The merge loses nothing exactly on the consecutively numbered trees, and there it
      emits every item of the tree once, sorted by order, whatever the interleaving was. */
  lemma {:induction false} MergeIsComplete<A, T>(c: Call<A, T>, start: nat)
    ensures Numbered(c, start) <==> Merge(c, start).1 == start + Count(c)
    ensures Numbered(c, start) <==> multiset(Merge(c, start).0) == multiset(Items(c))
    ensures Consecutive(Merge(c, start).0, start)
  {
    MergeEmits(c, start);
    SubMultisetSize(Merge(c, start).0, Items(c));
    if Numbered(c, start) {
      NumberedIsEmitted(c, 0, 0, start);
    }
    if Merge(c, start).1 == start + Count(c) {
      EmittedIsNumbered(c, 0, 0, start);
    }
    if multiset(Merge(c, start).0) == multiset(Items(c)) {
      assert |multiset(Merge(c, start).0)| == |multiset(Items(c))|;
    }
  }

  lemma {:induction false} WalkBelowAllOrders<A, T>(c: Call<A, T>, i: nat, j: nat, n: nat)
    requires i <= |c.items| && j <= |c.inner|
    requires forall e | e in multiset(ItemsFrom(c, i, j)) :: e.order > n
    ensures Walk(c, i, j, n).0 == [] && Walk(c, i, j, n).1 == n
    decreases c, |c.items| - i + |c.inner| - j
  {
    if i < |c.items| {
      assert Emit(c, i) in multiset(ItemsFrom(c, i, j));
    }
    if j < |c.inner| {
      ItemsSplit(c, i, j);
      WalkBelowAllOrders(c.inner[j], 0, 0, n);
      WalkBelowAllOrders(c, i, j + 1, n);
    }
  }

  /** The pallet always starts at order 0, but the counter that numbers the items is shared
      with the validation call that ran before.  If validation already used up some orders,
      every item of the executed call is lost; the merge is complete exactly when none was
      used or there is nothing to emit. */
  lemma {:induction false} MergeFromZero<A, T>(c: Call<A, T>, used: nat)
    requires Numbered(c, used)
    ensures used > 0 ==> Merge(c, 0) == ([], 0)
    ensures multiset(Merge(c, 0).0) == multiset(Items(c)) <==> used == 0 || Count(c) == 0
  {
    MergeIsComplete(c, used);
    OrdersAtLeast(c, 0, 0, used);
    if used > 0 {
      WalkBelowAllOrders(c, 0, 0, 0);
      if Count(c) > 0 {
        assert Items(c)[0] in multiset(Items(c));
      }
    }
  }
}
