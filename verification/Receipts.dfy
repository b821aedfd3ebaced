/** The search of a transaction's position in its block, as the receipt does it. */
module Receipts {
  import opened Basics
  import opened Felts
  import opened Transactions
  import opened Blocks
  import opened EventLookup

  /** An extrinsic of a block body: a Starknet transaction, which the pallet stored if its dispatch
      succeeded, or anything else. */
  datatype Extrinsic = Starknet(tx: Transaction, stored: bool) | Other

  /** The Starknet transactions of a block body. */
  function Filtered(xts: seq<Extrinsic>): seq<Transaction> {
    if xts == [] then []
    else
      var init, last := Filtered(xts[..|xts| - 1]), xts[|xts| - 1];
      if last.Starknet? then init + [last.tx] else init
  }

  /** Those of them that are in the Starknet block. */
  function Stored(xts: seq<Extrinsic>): seq<Transaction> {
    if xts == [] then []
    else
      var init, last := Stored(xts[..|xts| - 1]), xts[|xts| - 1];
      if last.Starknet? && last.stored then init + [last.tx] else init
  }

  function HashesOf(txs: seq<Transaction>, chainId: Felt): seq<Felt> {
    TransactionHashes(Block(DEFAULT_BLOCK.header, txs), chainId)
  }

  /** The position of the first occurrence, or the length of the list. */
  function FirstOf(hashes: seq<Felt>, t: Felt): nat {
    if hashes == [] || hashes[0] == t then 0 else 1 + FirstOf(hashes[1..], t)
  }

  lemma {:induction false} FirstOfAt(hashes: seq<Felt>, t: Felt, i: nat)
    requires i <= |hashes| && (i < |hashes| ==> hashes[i] == t) && forall j | 0 <= j < i :: hashes[j] != t
    ensures FirstOf(hashes, t) == i
    decreases i
  {
    if i > 0 {
      FirstOfAt(hashes[1..], t, i - 1);
    }
  }

  lemma {:induction false} FirstOfFacts(hashes: seq<Felt>, t: Felt)
    ensures var i := FirstOf(hashes, t);
            i <= |hashes| && (i < |hashes| ==> hashes[i] == t) && forall j | 0 <= j < i :: hashes[j] != t
    decreases |hashes|
  {
    if hashes != [] && hashes[0] != t {
      FirstOfFacts(hashes[1..], t);
      assert forall j | 1 <= j < |hashes| :: hashes[j] == hashes[1..][j - 1];
    }
  }

  // ---------------------------------------------------------------------------
  // The search
  // ---------------------------------------------------------------------------

  /** The hash of the transaction at a position, from the cache when there is one. */
  function HashFromCache(i: nat, cached: Option<seq<Felt>>, txs: seq<Transaction>, chainId: Felt): Option<Felt> {
    if cached.Some? then (if i < |cached.value| then Some(cached.value[i]) else None)
    else if i < |txs| then Some(ComputeHash(txs[i], chainId, false))
    else None
  }

  function KnownHashes(cached: Option<seq<Felt>>, txs: seq<Transaction>, chainId: Felt): seq<Felt> {
    if cached.Some? then cached.value else HashesOf(txs, chainId)
  }

  lemma {:induction false} CacheHoldsHashes(i: nat, cached: Option<seq<Felt>>, txs: seq<Transaction>, chainId: Felt)
    ensures var hashes := KnownHashes(cached, txs, chainId);
            HashFromCache(i, cached, txs, chainId) == if i < |hashes| then Some(hashes[i]) else None
  {
  }

  /** The position in the body and the transaction for a place in the filtered list. */
  function Place(xts: seq<Extrinsic>, i: nat): Option<(int, Transaction)> {
    var txs := Filtered(xts);
    if i < |txs| then Some((i + |xts| - |txs|, txs[i])) else None
  }

  /** What the receipt is made from. */
  function Located(xts: seq<Extrinsic>, cached: Option<seq<Felt>>, chainId: Felt, t: Felt): Option<(int, Transaction)> {
    var hashes := KnownHashes(cached, Filtered(xts), chainId);
    var i := FirstOf(hashes, t);
    if i < |hashes| then Place(xts, i) else None
  }

  method LocateTransaction(xts: seq<Extrinsic>, cached: Option<seq<Felt>>, chainId: Felt, t: Felt)
    returns (r: Option<(int, Transaction)>)
    ensures r == Located(xts, cached, chainId, t)
  {
    var txs := Filtered(xts);
    ghost var hashes := KnownHashes(cached, txs, chainId);
    FirstOfFacts(hashes, t);
    for i := 0 to |txs|
      invariant i <= |hashes| && forall j | 0 <= j < i :: hashes[j] != t
    {
      var hash := HashFromCache(i, cached, txs, chainId);
      CacheHoldsHashes(i, cached, txs, chainId);
      if hash.None? {
        return None;
      }
      if hash.value == t {
        FirstOfAt(hashes, t, i);
        return Some((i + |xts| - |txs|, txs[i]));
      }
    }
    r := None;
  }

  lemma {:induction false} LocatedAt(xts: seq<Extrinsic>, cached: Option<seq<Felt>>, chainId: Felt, i: nat)
    requires var hashes := KnownHashes(cached, Filtered(xts), chainId);
             i < |hashes| && forall j | 0 <= j < i :: hashes[j] != hashes[i]
    ensures Located(xts, cached, chainId, KnownHashes(cached, Filtered(xts), chainId)[i]) == Place(xts, i)
  {
    var hashes := KnownHashes(cached, Filtered(xts), chainId);
    FirstOfAt(hashes, hashes[i], i);
  }

  // ---------------------------------------------------------------------------
  // The position is right exactly when nothing else follows
  // ---------------------------------------------------------------------------

  function CountOther(xts: seq<Extrinsic>): nat {
    if xts == [] then 0
    else CountOther(xts[..|xts| - 1]) + if xts[|xts| - 1].Other? then 1 else 0
  }

  function CountFailed(xts: seq<Extrinsic>): nat {
    if xts == [] then 0
    else
      var last := xts[|xts| - 1];
      CountFailed(xts[..|xts| - 1]) + if last.Starknet? && !last.stored then 1 else 0
  }

  lemma {:induction false} Counts(xts: seq<Extrinsic>)
    ensures |Filtered(xts)| + CountOther(xts) == |xts|
    ensures |Stored(xts)| + CountFailed(xts) == |Filtered(xts)|
    decreases |xts|
  {
    if xts != [] {
      Counts(xts[..|xts| - 1]);
    }
  }

  /** Each transaction of the body sits at the place given by the transactions before it. */
  lemma {:induction false} PlaceInFiltered(xts: seq<Extrinsic>, p: nat)
    requires p < |xts| && xts[p].Starknet?
    ensures var i := |Filtered(xts[..p])|;
            i < |Filtered(xts)| && Filtered(xts)[i] == xts[p].tx && Filtered(xts[..p]) <= Filtered(xts)
    decreases |xts|
  {
    var init := xts[..|xts| - 1];
    if p < |init| {
      assert init[..p] == xts[..p];
      PlaceInFiltered(init, p);
    }
  }

  lemma {:induction false} PlaceInStored(xts: seq<Extrinsic>, p: nat)
    requires p < |xts| && xts[p].Starknet? && xts[p].stored
    ensures var i := |Stored(xts[..p])|;
            i < |Stored(xts)| && Stored(xts)[i] == xts[p].tx && Stored(xts[..p]) <= Stored(xts)
    decreases |xts|
  {
    var init := xts[..|xts| - 1];
    if p < |init| {
      assert init[..p] == xts[..p];
      PlaceInStored(init, p);
    }
  }

  lemma {:induction false} OthersFrom(xts: seq<Extrinsic>, p: nat)
    requires p <= |xts|
    ensures CountOther(xts) >= CountOther(xts[..p])
    ensures CountOther(xts) == CountOther(xts[..p]) <==> forall q | p <= q < |xts| :: xts[q].Starknet?
    decreases |xts|
  {
    if p < |xts| {
      var init := xts[..|xts| - 1];
      assert init[..p] == xts[..p];
      OthersFrom(init, p);
      assert forall q | 0 <= q < |init| :: init[q] == xts[q];
      if CountOther(xts) == CountOther(xts[..p]) {
        assert forall q | p <= q < |init| :: init[q].Starknet?;
      } else if xts[|xts| - 1].Starknet? {
        var q :| p <= q < |init| && !init[q].Starknet?;
        assert !xts[q].Starknet?;
      }
    } else {
      assert xts[..p] == xts;
    }
  }

  ghost predicate DistinctHashes(txs: seq<Transaction>, chainId: Felt) {
    Distinct(HashesOf(txs, chainId))
  }

  /** No transaction of the body has the hash. */
  ghost predicate Without(xts: seq<Extrinsic>, chainId: Felt, t: Felt) {
    forall q | 0 <= q < |xts| && xts[q].Starknet? :: ComputeHash(xts[q].tx, chainId, false) != t
  }

  /** The transaction is the first of the body with its hash. */
  ghost predicate FirstWithHash(xts: seq<Extrinsic>, chainId: Felt, p: nat) {
    p < |xts| && xts[p].Starknet? && Without(xts[..p], chainId, ComputeHash(xts[p].tx, chainId, false))
  }

  lemma {:induction false} WithoutHash(xts: seq<Extrinsic>, chainId: Felt, t: Felt)
    requires Without(xts, chainId, t)
    ensures t !in HashesOf(Filtered(xts), chainId) && t !in HashesOf(Stored(xts), chainId)
    decreases |xts|
  {
    if xts != [] {
      var init, last := xts[..|xts| - 1], xts[|xts| - 1];
      WithoutHash(init, chainId, t);
      assert last.Starknet? ==> ComputeHash(last.tx, chainId, false) != t;
      HashesSnoc(Filtered(init), Filtered(xts), chainId, t);
      HashesSnoc(Stored(init), Stored(xts), chainId, t);
    }
  }

  lemma {:induction false} HashesSnoc(init: seq<Transaction>, txs: seq<Transaction>, chainId: Felt, t: Felt)
    requires t !in HashesOf(init, chainId)
    requires txs == init || (|txs| == |init| + 1 && init <= txs && ComputeHash(txs[|init|], chainId, false) != t)
    ensures t !in HashesOf(txs, chainId)
  {
    forall k | 0 <= k < |txs| ensures HashesOf(txs, chainId)[k] != t {
      if k < |init| {
        assert HashesOf(init, chainId)[k] == HashesOf(txs, chainId)[k];
      }
    }
  }

  lemma {:induction false} EarlierDiffer(before: seq<Transaction>, txs: seq<Transaction>, chainId: Felt, t: Felt)
    requires before <= txs && t !in HashesOf(before, chainId)
    ensures forall k | 0 <= k < |before| :: HashesOf(txs, chainId)[k] != t
  {
    forall k | 0 <= k < |before| ensures HashesOf(txs, chainId)[k] != t {
      assert HashesOf(before, chainId)[k] in HashesOf(before, chainId);
    }
  }

  lemma {:induction false} LocatedInFiltered(xts: seq<Extrinsic>, chainId: Felt, p: nat)
    requires FirstWithHash(xts, chainId, p)
    ensures Located(xts, None, chainId, ComputeHash(xts[p].tx, chainId, false)) == Place(xts, |Filtered(xts[..p])|)
  {
    PlaceInFiltered(xts, p);
    WithoutHash(xts[..p], chainId, ComputeHash(xts[p].tx, chainId, false));
    EarlierDiffer(Filtered(xts[..p]), Filtered(xts), chainId, ComputeHash(xts[p].tx, chainId, false));
    LocatedAt(xts, None, chainId, |Filtered(xts[..p])|);
  }

  /** Without a cache the search finds the first transaction with the hash, and the position it gives is the true one
      exactly when only Starknet transactions follow in the body. */
  lemma {:induction false} PositionIsTrue(xts: seq<Extrinsic>, chainId: Felt, p: nat)
    requires FirstWithHash(xts, chainId, p)
    ensures var r := Located(xts, None, chainId, ComputeHash(xts[p].tx, chainId, false));
            && r.Some? && r.value.1 == xts[p].tx
            && r.value.0 == p + CountOther(xts) - CountOther(xts[..p])
            && (r.value.0 == p <==> forall q | p <= q < |xts| :: xts[q].Starknet?)
  {
    LocatedInFiltered(xts, chainId, p);
    PlaceInFiltered(xts, p);
    Counts(xts);
    Counts(xts[..p]);
    OthersFrom(xts, p);
  }

  // ---------------------------------------------------------------------------
  // The cache holds the stored transactions only
  // ---------------------------------------------------------------------------

  lemma {:induction false} StoredIsFiltered(xts: seq<Extrinsic>)
    requires CountFailed(xts) == 0
    ensures Stored(xts) == Filtered(xts)
    decreases |xts|
  {
    if xts != [] {
      StoredIsFiltered(xts[..|xts| - 1]);
    }
  }

  /** With the block's own hashes in the cache and no failed transaction in the body, every search
      ends as it does without a cache. */
  lemma {:induction false} CacheAgreesWhenAllStored(xts: seq<Extrinsic>, chainId: Felt, t: Felt)
    requires CountFailed(xts) == 0
    ensures Located(xts, Some(HashesOf(Stored(xts), chainId)), chainId, t) == Located(xts, None, chainId, t)
  {
    StoredIsFiltered(xts);
  }

  /** With failed transactions in the body, the search for a stored one ends as without a cache
      exactly when none failed before it; otherwise it is off by the number that did. */
  lemma {:induction false} CacheAgreesWhenNoneFailedBefore(xts: seq<Extrinsic>, chainId: Felt, p: nat)
    requires FirstWithHash(xts, chainId, p) && xts[p].stored
    ensures var t := ComputeHash(xts[p].tx, chainId, false);
            OffBy(Located(xts, None, chainId, t), Located(xts, Some(HashesOf(Stored(xts), chainId)), chainId, t),
                  CountFailed(xts[..p]))
  {
    LocatedInFiltered(xts, chainId, p);
    LocatedInStored(xts, chainId, p);
    PlacesOff(xts, p);
  }

  /** The second result is for a place so much before that of the first. */
  ghost predicate OffBy(u: Option<(int, Transaction)>, c: Option<(int, Transaction)>, n: nat) {
    u.Some? && c.Some? && c.value.0 == u.value.0 - n && (c == u <==> n == 0)
  }

  lemma {:induction false} PlacesOff(xts: seq<Extrinsic>, p: nat)
    requires p < |xts| && xts[p].Starknet?
    ensures OffBy(Place(xts, |Filtered(xts[..p])|), Place(xts, |Stored(xts[..p])|), CountFailed(xts[..p]))
  {
    PlaceInFiltered(xts, p);
    Counts(xts[..p]);
  }

  lemma {:induction false} LocatedInStored(xts: seq<Extrinsic>, chainId: Felt, p: nat)
    requires FirstWithHash(xts, chainId, p) && xts[p].stored
    ensures Located(xts, Some(HashesOf(Stored(xts), chainId)), chainId, ComputeHash(xts[p].tx, chainId, false))
            == Place(xts, |Stored(xts[..p])|)
  {
    PlaceInStored(xts, p);
    WithoutHash(xts[..p], chainId, ComputeHash(xts[p].tx, chainId, false));
    EarlierDiffer(Stored(xts[..p]), Stored(xts), chainId, ComputeHash(xts[p].tx, chainId, false));
    LocatedAt(xts, Some(HashesOf(Stored(xts), chainId)), chainId, |Stored(xts[..p])|);
  }

  // ---------------------------------------------------------------------------
  // The events of the receipt
  // ---------------------------------------------------------------------------

  ghost predicate OnlyStarknetFrom(xts: seq<Extrinsic>, p: nat) {
    forall q | p <= q < |xts| :: xts[q].Starknet?
  }

  /** A cached search that is off names another transaction. */
  lemma {:induction false} OffIsWrong(xts: seq<Extrinsic>, chainId: Felt, p: nat)
    requires FirstWithHash(xts, chainId, p) && xts[p].stored && CountFailed(xts[..p]) > 0
    ensures var t := ComputeHash(xts[p].tx, chainId, false);
            var r := Located(xts, Some(HashesOf(Stored(xts), chainId)), chainId, t);
            r.Some? && r.value.1 != xts[p].tx
  {
    var t, k := ComputeHash(xts[p].tx, chainId, false), |Stored(xts[..p])|;
    LocatedInStored(xts, chainId, p);
    Counts(xts[..p]);
    PlaceInFiltered(xts, p);
    WithoutHash(xts[..p], chainId, t);
    EarlierDiffer(Filtered(xts[..p]), Filtered(xts), chainId, t);
    assert HashesOf(Filtered(xts), chainId)[k] != t;
  }

  /** The search of the receipt, with or without the block's own hashes in the cache, gives the true
      position and transaction if and only if only Starknet transactions follow and, with a cache,
      none failed before. */
  lemma {:induction false} LocatedRightIff(xts: seq<Extrinsic>, cached: Option<seq<Felt>>, chainId: Felt, p: nat)
    requires FirstWithHash(xts, chainId, p) && xts[p].stored
    requires cached.None? || cached == Some(HashesOf(Stored(xts), chainId))
    ensures Located(xts, cached, chainId, ComputeHash(xts[p].tx, chainId, false)) == Some((p, xts[p].tx))
            <==> OnlyStarknetFrom(xts, p) && (cached.Some? ==> CountFailed(xts[..p]) == 0)
  {
    PositionIsTrue(xts, chainId, p);
    if cached.Some? {
      CacheAgreesWhenNoneFailedBefore(xts, chainId, p);
      if CountFailed(xts[..p]) > 0 {
        OffIsWrong(xts, chainId, p);
      }
    }
  }

  /** The receipt is made for the right transaction and with all its events if and only if, besides,
      these events are one run that no event of a block hook follows. */
  lemma {:induction false} ReceiptIsRightIff(xts: seq<Extrinsic>, records: seq<EventRecord>, cached: Option<seq<Felt>>,
                                             chainId: Felt, p: nat)
    requires FirstWithHash(xts, chainId, p) && xts[p].stored
    requires cached.None? || cached == Some(HashesOf(Stored(xts), chainId))
    ensures && Located(xts, cached, chainId, ComputeHash(xts[p].tx, chainId, false)) == Some((p, xts[p].tx))
            && EventsByIndex(records, p) == Some(EventsOf(StarknetEvents(records), p))
            <==>
            && OnlyStarknetFrom(xts, p) && (cached.Some? ==> CountFailed(xts[..p]) == 0)
            && Grouped(StarknetEvents(records), p)
  {
    LocatedRightIff(xts, cached, chainId, p);
    EventsByIndexIsFilter(records, p);
  }

  /** Events that come with rising indices meet the last condition. */
  lemma {:induction false} ReceiptHasItsEvents(xts: seq<Extrinsic>, records: seq<EventRecord>,
                                               cached: Option<seq<Felt>>, chainId: Felt, p: nat)
    requires FirstWithHash(xts, chainId, p) && xts[p].stored && OnlyStarknetFrom(xts, p)
    requires cached.None? || (cached == Some(HashesOf(Stored(xts), chainId)) && CountFailed(xts[..p]) == 0)
    requires Rising(StarknetEvents(records))
    ensures Located(xts, cached, chainId, ComputeHash(xts[p].tx, chainId, false)) == Some((p, xts[p].tx))
    ensures EventsByIndex(records, p) == Some(EventsOf(StarknetEvents(records), p))
  {
    RisingIsGrouped(StarknetEvents(records), p);
    ReceiptIsRightIff(xts, records, cached, chainId, p);
  }
}
