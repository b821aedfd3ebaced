/** Maps that remember the order of insertion, as lists of entries. */
module IndexMaps {
  import opened Blocks

  type Word = nat

  type IndexMap<V> = seq<(Word, V)>

  ghost predicate DistinctKeys<V>(m: IndexMap<V>) {
    forall i, j | 0 <= i < j < |m| :: m[i].0 != m[j].0
  }

  function Keys<V>(m: IndexMap<V>): set<Word> {
    set i | 0 <= i < |m| :: m[i].0
  }

  /** The position of a key, or the length of the list when the key is not there. */
  function IndexOf<V>(m: IndexMap<V>, k: Word): (i: nat)
    ensures i <= |m| && (i < |m| ==> m[i].0 == k)
    ensures forall j | 0 <= j < i :: m[j].0 != k
  {
    if m == [] || m[0].0 == k then 0 else 1 + IndexOf(m[1..], k)
  }

  function Get<V>(m: IndexMap<V>, k: Word): Option<V> {
    var i := IndexOf(m, k);
    if i < |m| then Some(m[i].1) else None
  }

  /** An entry keeps its place when its key is written again. */
  function Insert<V>(m: IndexMap<V>, k: Word, v: V): IndexMap<V> {
    var i := IndexOf(m, k);
    if i < |m| then m[i := (k, v)] else m + [(k, v)]
  }

  /** The last entry takes the place of the removed one. */
  function SwapRemove<V>(m: IndexMap<V>, k: Word): IndexMap<V> {
    var i := IndexOf(m, k);
    if i < |m| then m[i := m[|m| - 1]][..|m| - 1] else m
  }

  lemma {:induction false} EntryIsGet<V>(m: IndexMap<V>, i: nat)
    requires DistinctKeys(m) && i < |m|
    ensures Get(m, m[i].0) == Some(m[i].1)
  {
    var j := IndexOf(m, m[i].0);
    assert !(j < i) && !(i < j);
  }

  lemma {:induction false} KeyIsGet<V>(m: IndexMap<V>, k: Word)
    ensures k in Keys(m) <==> Get(m, k).Some?
  {
    if IndexOf(m, k) < |m| {
      assert m[IndexOf(m, k)].0 in Keys(m);
    }
  }

  lemma {:induction false} InsertGet<V>(m: IndexMap<V>, k: Word, v: V, k': Word)
    requires DistinctKeys(m)
    ensures DistinctKeys(Insert(m, k, v))
    ensures Get(Insert(m, k, v), k') == if k' == k then Some(v) else Get(m, k')
  {
    var r := Insert(m, k, v);
    var i := IndexOf(m, k');
    if k' == k {
      EntryIsGet(r, IndexOf(m, k));
    } else if i < |m| {
      EntryIsGet(r, i);
    }
  }

  lemma {:induction false} RemoveGet<V>(m: IndexMap<V>, k: Word, k': Word)
    requires DistinctKeys(m)
    ensures DistinctKeys(SwapRemove(m, k))
    ensures Get(SwapRemove(m, k), k') == if k' == k then None else Get(m, k')
  {
    var r, removed, i := SwapRemove(m, k), IndexOf(m, k), IndexOf(m, k');
    if removed < |m| {
      var last := |m| - 1;
      assert forall j | 0 <= j < last :: r[j] == if j == removed then m[last] else m[j];
      if k' != k && i < |m| {
        EntryIsGet(r, if i == last then removed else i);
      }
    }
  }

  lemma {:induction false} KeysSize<V>(m: IndexMap<V>)
    requires DistinctKeys(m)
    ensures |Keys(m)| == |m|
    decreases |m|
  {
    if m != [] {
      var init, k := m[..|m| - 1], m[|m| - 1].0;
      KeysSize(init);
      assert k !in Keys(init);
      assert Keys(m) == Keys(init) + {k} by {
        assert forall i | 0 <= i < |m| - 1 :: m[i] == init[i];
        forall x | x in Keys(init) + {k} ensures x in Keys(m) {
          if x == k {
            assert m[|m| - 1].0 == x;
          } else {
            var i :| 0 <= i < |init| && init[i].0 == x;
            assert m[i].0 == x;
          }
        }
      }
    }
  }
}
