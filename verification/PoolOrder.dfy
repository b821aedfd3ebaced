/**
 The transaction pool orders transactions by the tags validation gives them: a transaction may
 only be included after those that provide the tags it requires.
 */
module PoolOrder {
  import opened Felts
  import opened Transactions
  import opened Blocks
  import opened Pallet
  import opened PalletRuns
  import opened PalletTheorems

  datatype Tag = Tag(address: Felt, nonce: nat)

  datatype Validity = Valid(offered: seq<Tag>, required: seq<Tag>) | Stale | Payment | BadProof

  /** Validation of an unsigned call.  `checks` stands for the execution of the account's own
      validation, `paid` for a fee above zero on an L1 handler. */
  function ValidateUnsigned(s: State, tx: Transaction, checks: bool, paid: bool): Validity {
    if tx.L1Handler? then
      if tx.nonce in s.l1Messages then Stale
      else if !paid then Payment
      else Valid([Tag(ZERO, tx.nonce)], [])
    else if tx.InvokeV0? then
      if checks then Valid([], []) else BadProof
    else
      var senderNonce := NonceOf(s, Sender(tx));
      if senderNonce > tx.nonce then Stale
      else if !checks then BadProof
      else Valid([Tag(Sender(tx), tx.nonce)], if tx.nonce > senderNonce then [Tag(Sender(tx), tx.nonce - 1)] else [])
  }

  /** A pool entry: a transaction with the verdict it got at one common state. */
  datatype Entry = Entry(tx: Transaction, validity: Validity)

  ghost predicate ValidatedAt(s: State, e: Entry) {
    && e.validity.Valid?
    && e.validity == ValidateUnsigned(s, e.tx, true, true)
    && (!e.tx.InvokeV0? ==> e.tx.nonce < PRIME)
  }

  /** Each required tag is provided by an earlier entry. */
  ghost predicate RespectsTags(order: seq<Entry>) {
    forall i, t | 0 <= i < |order| && order[i].validity.Valid? && t in order[i].validity.required ::
      exists j | 0 <= j < i :: order[j].validity.Valid? && t in order[j].validity.offered
  }

  ghost predicate DistinctProvides(order: seq<Entry>) {
    forall i, j, t | 0 <= i < j < |order| && order[i].validity.Valid? && order[j].validity.Valid? ::
      t in order[i].validity.offered ==> t !in order[j].validity.offered
  }

  /** A pool order: every entry was found valid at the same state, tags come before those that
      require them, and no tag is provided twice. */
  ghost predicate PoolOrdered(s: State, order: seq<Entry>) {
    && (forall i | 0 <= i < |order| :: ValidatedAt(s, order[i]))
    && RespectsTags(order) && DistinctProvides(order)
  }

  /** The nonces of the checked transactions of one sender, in order. */
  function SenderNonces(order: seq<Entry>, a: Felt): seq<nat> {
    if order == [] then []
    else
      var tx := order[|order| - 1].tx;
      SenderNonces(order[..|order| - 1], a) + if Counts(tx, a) then [tx.nonce] else []
  }

  lemma {:induction false} PrefixOrdered(s: State, order: seq<Entry>)
    requires PoolOrdered(s, order) && order != []
    ensures PoolOrdered(s, order[..|order| - 1])
  {
    var init := order[..|order| - 1];
    forall i, t | 0 <= i < |init| && init[i].validity.Valid? && t in init[i].validity.required
      ensures exists j | 0 <= j < i :: init[j].validity.Valid? && t in init[j].validity.offered
    {
      assert order[i] == init[i];
      var j :| 0 <= j < i && order[j].validity.Valid? && t in order[j].validity.offered;
      assert init[j] == order[j];
    }
  }

  lemma {:induction false} SenderNonceAt(order: seq<Entry>, a: Felt, i: nat)
    requires i < |order| && Counts(order[i].tx, a)
    ensures order[i].tx.nonce in SenderNonces(order, a)
    decreases |order|
  {
    if i < |order| - 1 {
      SenderNonceAt(order[..|order| - 1], a, i);
    }
  }

  lemma {:induction false} SenderNonceFrom(order: seq<Entry>, a: Felt, n: nat) returns (i: nat)
    requires n in SenderNonces(order, a)
    ensures i < |order| && Counts(order[i].tx, a) && order[i].tx.nonce == n
    decreases |order|
  {
    var last := |order| - 1;
    if n in SenderNonces(order[..last], a) {
      i := SenderNonceFrom(order[..last], a, n);
    } else {
      i := last;
    }
  }

  /** A transaction that provides a tag of the account and does not count for it: a version 0
      declaration of the account, and every L1 handler for the zero address. */
  predicate StandsIn(tx: Transaction, a: Felt) {
    (tx.DeclareV0? && Sender(tx) == a) || (tx.L1Handler? && a == ZERO)
  }

  /** No checked transaction of the account waits for a tag that a stand-in provides. */
  ghost predicate NoStandIn(s: State, order: seq<Entry>, a: Felt) {
    forall i, k | 0 <= i < |order| && 0 <= k < |order| && Counts(order[i].tx, a) && StandsIn(order[k].tx, a) ::
      order[i].tx.nonce > NonceOf(s, a) ==> order[i].tx.nonce != order[k].tx.nonce + 1
  }

  /** The tags of an account are provided by its checked transactions and by stand-ins. */
  lemma {:induction false} TagOwner(s: State, e: Entry, a: Felt, n: nat)
    requires ValidatedAt(s, e)
    ensures Tag(a, n) in e.validity.offered <==> (Counts(e.tx, a) || StandsIn(e.tx, a)) && e.tx.nonce == n
  {
  }

  lemma {:induction false} PrefixNoStandIn(s: State, order: seq<Entry>, a: Felt)
    requires NoStandIn(s, order, a) && order != []
    ensures NoStandIn(s, order[..|order| - 1], a)
  {
    var init := order[..|order| - 1];
    assert forall i | 0 <= i < |init| :: init[i] == order[i];
  }

  /** The last entry repeats no nonce of its sender and none below the account's. */
  lemma {:induction false} FreshNonce(s: State, order: seq<Entry>, a: Felt)
    requires PoolOrdered(s, order) && order != [] && Counts(order[|order| - 1].tx, a)
    ensures var m := order[|order| - 1].tx.nonce;
            m >= NonceOf(s, a) && m !in SenderNonces(order[..|order| - 1], a)
  {
    var n := |order| - 1;
    var init, last := order[..n], order[n];
    assert ValidatedAt(s, last);
    TagOwner(s, last, a, last.tx.nonce);
    if last.tx.nonce in SenderNonces(init, a) {
      var i := SenderNonceFrom(init, a, last.tx.nonce);
      assert order[i] == init[i];
      TagOwner(s, order[i], a, last.tx.nonce);
      assert false;
    }
  }

  /** The predecessor of the last entry is there, unless a stand-in provided its tag. */
  lemma {:induction false} NextNonce(s: State, order: seq<Entry>, a: Felt)
    requires PoolOrdered(s, order) && order != [] && Counts(order[|order| - 1].tx, a) && NoStandIn(s, order, a)
    ensures var m := order[|order| - 1].tx.nonce;
            m > NonceOf(s, a) ==> m - 1 in SenderNonces(order[..|order| - 1], a)
  {
    var n := |order| - 1;
    var init, last := order[..n], order[n];
    var m := last.tx.nonce;
    assert ValidatedAt(s, last);
    if m > NonceOf(s, a) {
      assert Tag(a, m - 1) in last.validity.required;
      var j :| 0 <= j < n && order[j].validity.Valid? && Tag(a, m - 1) in order[j].validity.offered;
      TagOwner(s, order[j], a, m - 1);
      assert init[j] == order[j];
      SenderNonceAt(init, a, j);
    }
  }

  ghost predicate CountsUp(ns: seq<nat>, from: nat) {
    forall j | 0 <= j < |ns| :: ns[j] == from + j
  }

  lemma {:induction false} CountsUpNext(before: seq<nat>, n: nat, m: nat)
    requires CountsUp(before, n) && m >= n && m !in before && (m > n ==> m - 1 in before)
    ensures CountsUp(before + [m], n)
  {
    CountsUpRange(before, n, m);
    if m > n {
      CountsUpRange(before, n, m - 1);
    }
  }

  /** Without stand-ins the transactions of a sender come with the nonces n, n + 1, n + 2, ... where
      n is the nonce of the account. */
  lemma {:induction false} NoncesCountUp(s: State, order: seq<Entry>, a: Felt)
    requires PoolOrdered(s, order) && NoStandIn(s, order, a)
    ensures CountsUp(SenderNonces(order, a), NonceOf(s, a))
    decreases |order|
  {
    if order != [] {
      PrefixOrdered(s, order);
      PrefixNoStandIn(s, order, a);
      var init, last := order[..|order| - 1], order[|order| - 1];
      NoncesCountUp(s, init, a);
      if Counts(last.tx, a) {
        FreshNonce(s, order, a);
        NextNonce(s, order, a);
        CountsUpNext(SenderNonces(init, a), NonceOf(s, a), last.tx.nonce);
      }
    }
  }

  /** With a stand-in the tag of some transaction of the sender would be provided twice. */
  lemma {:induction false} CountingUpLeavesNoStandIn(s: State, order: seq<Entry>, a: Felt)
    requires PoolOrdered(s, order) && CountsUp(SenderNonces(order, a), NonceOf(s, a))
    ensures NoStandIn(s, order, a)
  {
    forall i, k | 0 <= i < |order| && 0 <= k < |order| && Counts(order[i].tx, a) && StandsIn(order[k].tx, a)
                  && order[i].tx.nonce > NonceOf(s, a)
      ensures order[i].tx.nonce != order[k].tx.nonce + 1
    {
      var x := order[k].tx.nonce;
      if order[i].tx.nonce == x + 1 {
        SenderNonceAt(order, a, i);
        CountsUpRange(SenderNonces(order, a), NonceOf(s, a), x + 1);
        CountsUpRange(SenderNonces(order, a), NonceOf(s, a), x);
        var j := SenderNonceFrom(order, a, x);
        TagOwner(s, order[j], a, x);
        TagOwner(s, order[k], a, x);
        assert false;
      }
    }
  }

  /** In every pool order: the transactions of a sender come with consecutive nonces from that of the
      account on if and only if none of them waits for the tag of a stand-in. */
  lemma {:induction false} CountsUpIffNoStandIn(s: State, order: seq<Entry>, a: Felt)
    requires PoolOrdered(s, order)
    ensures CountsUp(SenderNonces(order, a), NonceOf(s, a)) <==> NoStandIn(s, order, a)
  {
    if NoStandIn(s, order, a) {
      NoncesCountUp(s, order, a);
    }
    if CountsUp(SenderNonces(order, a), NonceOf(s, a)) {
      CountingUpLeavesNoStandIn(s, order, a);
    }
  }

  lemma {:induction false} CountsUpRange(ns: seq<nat>, from: nat, m: nat)
    requires CountsUp(ns, from)
    ensures m in ns <==> from <= m < from + |ns|
  {
    if from <= m < from + |ns| {
      assert ns[m - from] == m;
    }
  }

  /** The nonce handling of every transaction of the order, one after the other. */
  function HandleAll(config: Config, s: State, order: seq<Entry>): Option<State> {
    if order == [] then Some(s)
    else
      match HandleAll(config, s, order[..|order| - 1])
      case None => None
      case Some(s') => HandleNonce(config, s', order[|order| - 1].tx)
  }

  /** The checks pass and leave each account at its nonce plus the number of its transactions. */
  ghost predicate Handled(config: Config, s: State, order: seq<Entry>) {
    var r := HandleAll(config, s, order);
    r.Some? && forall a :: NonceOf(r.value, a) == (NonceOf(s, a) + |SenderNonces(order, a)|) % PRIME
  }

  /** The last transaction carries the nonce its account has by then. */
  ghost predicate LastFits(s: State, order: seq<Entry>)
    requires order != [] && Version(order[|order| - 1].tx) != 0
  {
    var tx, init := order[|order| - 1].tx, order[..|order| - 1];
    tx.nonce == (NonceOf(s, Sender(tx)) + |SenderNonces(init, Sender(tx))|) % PRIME
  }

  /** One more transaction passes if and only if it carries that nonce. */
  lemma {:induction false} HandledNext(config: Config, s: State, order: seq<Entry>)
    requires !config.disableNonceValidation && order != [] && Handled(config, s, order[..|order| - 1])
    ensures var tx := order[|order| - 1].tx;
            && (HandleAll(config, s, order).Some? <==> (Version(tx) != 0 ==> LastFits(s, order)))
            && (HandleAll(config, s, order).Some? ==> Handled(config, s, order))
  {
    var init, tx := order[..|order| - 1], order[|order| - 1].tx;
    var s' := HandleAll(config, s, init).value;
    assert HandleAll(config, s, order) == HandleNonce(config, s', tx);
    if Version(tx) != 0 && HandleNonce(config, s', tx).Some? {
      AdvanceKeeps(config, s', tx);
      ModSucc(NonceOf(s, Sender(tx)) + |SenderNonces(init, Sender(tx))|);
    }
  }

  ghost predicate NoStandIns(s: State, order: seq<Entry>) {
    forall a :: NoStandIn(s, order, a)
  }

  /** Executed in a pool order without stand-ins every nonce check passes, and each account ends up
      at its nonce plus the number of its transactions. */
  lemma {:induction false} NonceChecksPass(config: Config, s: State, order: seq<Entry>)
    requires !config.disableNonceValidation && PoolOrdered(s, order) && NoStandIns(s, order)
    requires forall a :: NonceOf(s, a) < PRIME
    ensures Handled(config, s, order)
    decreases |order|
  {
    if order != [] {
      PrefixOrdered(s, order);
      var init, tx := order[..|order| - 1], order[|order| - 1].tx;
      forall a ensures NoStandIn(s, init, a) {
        PrefixNoStandIn(s, order, a);
      }
      NonceChecksPass(config, s, init);
      if Version(tx) != 0 {
        NoncesCountUp(s, order, Sender(tx));
        LastNonce(s, order);
      }
      HandledNext(config, s, order);
    } else {
      forall a ensures NonceOf(s, a) == (NonceOf(s, a) + |SenderNonces(order, a)|) % PRIME {
        SmallMod(NonceOf(s, a));
      }
    }
  }

  lemma {:induction false} LastNonce(s: State, order: seq<Entry>)
    requires PoolOrdered(s, order) && order != [] && Version(order[|order| - 1].tx) != 0
    requires var a := Sender(order[|order| - 1].tx); CountsUp(SenderNonces(order, a), NonceOf(s, a))
    ensures LastFits(s, order)
  {
    var tx, init := order[|order| - 1].tx, order[..|order| - 1];
    assert ValidatedAt(s, order[|order| - 1]);
    assert SenderNonces(order, Sender(tx))[|SenderNonces(init, Sender(tx))|] == tx.nonce;
    SmallMod(tx.nonce);
  }

  lemma {:induction false} SenderNoncesSmall(s: State, order: seq<Entry>, a: Felt)
    requires forall i | 0 <= i < |order| :: ValidatedAt(s, order[i])
    ensures forall n | n in SenderNonces(order, a) :: n < PRIME
    decreases |order|
  {
    if order != [] {
      SenderNoncesSmall(s, order[..|order| - 1], a);
    }
  }

  /** When every check passes, the transactions of each sender came with consecutive nonces; the
      nonces do not wrap around, since a wrapped nonce would provide a tag twice. */
  lemma {:induction false} PassingCountsUp(config: Config, s: State, order: seq<Entry>, a: Felt)
    requires !config.disableNonceValidation && PoolOrdered(s, order) && HandleAll(config, s, order).Some?
    requires forall a :: NonceOf(s, a) < PRIME
    ensures Handled(config, s, order) && CountsUp(SenderNonces(order, a), NonceOf(s, a))
    decreases |order|
  {
    if order != [] {
      PrefixOrdered(s, order);
      var init, tx := order[..|order| - 1], order[|order| - 1].tx;
      PassingCountsUp(config, s, init, a);
      HandledNext(config, s, order);
      if Counts(tx, a) {
        FreshNonce(s, order, a);
        SenderNoncesSmall(s, init, a);
        NoWrap(SenderNonces(init, a), NonceOf(s, a), tx.nonce);
      }
    } else {
      NonceChecksPass(config, s, order);
    }
  }

  lemma {:induction false} NoWrap(before: seq<nat>, n: nat, m: nat)
    requires CountsUp(before, n) && n < PRIME && (forall x | x in before :: x < PRIME)
    requires m == (n + |before|) % PRIME && m >= n && m !in before
    ensures CountsUp(before + [m], n)
  {
    if before != [] {
      assert before[|before| - 1] in before;
    }
    if n + |before| == PRIME {
      CountsUpRange(before, n, m);
      assert false;
    }
    SmallMod(n + |before|);
  }

  /** In every pool order: all nonce checks pass if and only if no transaction waits for the tag of a
      stand-in. */
  lemma {:induction false} ChecksPassIffNoStandIns(config: Config, s: State, order: seq<Entry>)
    requires !config.disableNonceValidation && PoolOrdered(s, order) && forall a :: NonceOf(s, a) < PRIME
    ensures HandleAll(config, s, order).Some? <==> NoStandIns(s, order)
  {
    if NoStandIns(s, order) {
      NonceChecksPass(config, s, order);
    }
    if HandleAll(config, s, order).Some? {
      forall a ensures NoStandIn(s, order, a) {
        PassingCountsUp(config, s, order, a);
        CountsUpIffNoStandIn(s, order, a);
      }
    }
  }

  /** Orders without version 0 declarations, in which no transaction comes from the zero address, have
      no stand-ins. */
  lemma {:induction false} PlainOrdersPass(config: Config, s: State, order: seq<Entry>)
    requires !config.disableNonceValidation && PoolOrdered(s, order) && forall a :: NonceOf(s, a) < PRIME
    requires forall i | 0 <= i < |order| :: !order[i].tx.DeclareV0? && !Counts(order[i].tx, ZERO)
    ensures Handled(config, s, order)
  {
    NonceChecksPass(config, s, order);
  }

  lemma {:induction false} AdvanceKeeps(config: Config, s: State, tx: Transaction)
    requires !config.disableNonceValidation && Version(tx) != 0 && NonceOf(s, Sender(tx)) == tx.nonce
    ensures HandleNonce(config, s, tx).Some?
    ensures forall a :: NonceOf(HandleNonce(config, s, tx).value, a) ==
                        if a == Sender(tx) then (tx.nonce + 1) % PRIME else NonceOf(s, a)
  {
  }

  /** Validation, too, rejects a message from L1 for ever once it was stored. */
  lemma {:induction false} ConsumedMessageIsStale(config: Config, l: Ledger, steps: seq<Step>, i: nat, again: Extrinsic,
                                                  paid: bool)
    requires Reachable(config, l) && Run(config, l, steps).Some?
    requires i < |AllRecords(l)| && AllRecords(l)[i].tx.L1Handler?
    requires again.Submit? && again.tx.L1Handler? && again.tx.nonce == AllRecords(l)[i].tx.nonce
    ensures ValidateUnsigned(Run(config, l, steps).value.state, again.tx, true, paid) == Stale
  {
    L1MessageConsumedForever(config, l, steps, i, again);
  }

  // ---------------------------------------------------------------------------
  // Stand-ins exist
  // ---------------------------------------------------------------------------

  /** The storage after the genesis build, with no account deployed. */
  function Fresh(config: Config): State {
    Genesis(config, 0, {}, {}).0
  }

  function EntryAt(s: State, tx: Transaction): Entry {
    Entry(tx, ValidateUnsigned(s, tx, true, true))
  }

  /** An L1 handler provides a tag of the zero address, so it can stand in for a missing
      transaction of an account with that address. */
  lemma {:induction false} ZeroSenderCollides(config: Config)
    ensures exists order :: PoolOrdered(Fresh(config), order) && !CountsUp(SenderNonces(order, ZERO), 0)
  {
    var handler := L1Handler(0, ZERO, ZERO, []);
    var invoke := InvokeV1(0, [], 1, ZERO, [], false);
    var order := [EntryAt(Fresh(config), handler), EntryAt(Fresh(config), invoke)];
    assert order[0].validity == Valid([Tag(ZERO, 0)], []);
    assert order[1].validity == Valid([Tag(ZERO, 1)], [Tag(ZERO, 0)]);
    assert order[..1] == [order[0]];
    assert SenderNonces(order[..1], ZERO) == [];
    assert SenderNonces(order, ZERO) == [1] && !CountsUp([1], 0) by {
      assert [1][0] != 0;
    }
    assert PoolOrdered(Fresh(config), order);
  }

  /** A version 0 declaration provides the tag of its nonce but does not advance the account. */
  lemma {:induction false} VersionZeroStalls(config: Config)
    requires !config.disableNonceValidation
    ensures exists order :: PoolOrdered(Fresh(config), order) && HandleAll(config, Fresh(config), order).None?
  {
    var a := Value(7);
    var declare := DeclareV0(0, [], 0, Value(8), a);
    var invoke := InvokeV1(0, [], 1, a, [], false);
    var order := [EntryAt(Fresh(config), declare), EntryAt(Fresh(config), invoke)];
    assert order[0].validity == Valid([Tag(a, 0)], []);
    assert order[1].validity == Valid([Tag(a, 1)], [Tag(a, 0)]);
    assert order[..1] == [order[0]] && order[..1][..0] == [];
    assert HandleAll(config, Fresh(config), order[..1][..0]) == Some(Fresh(config));
    assert HandleAll(config, Fresh(config), order[..1]) == Some(Fresh(config));
    assert HandleAll(config, Fresh(config), order).None?;
    assert PoolOrdered(Fresh(config), order);
  }
}
