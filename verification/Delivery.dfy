/**
 What arrives on L1: two stored transactions share a hash exactly when a transaction without a nonce
 check was stored again, which decides whether messages are conserved; and what the settlement worker
 has sent after any number of restarts is conserved in the sense of the whole chain.
 */
module Delivery {
  import opened Basics
  import opened Felts
  import opened Transactions
  import opened Blocks
  import opened Pallet
  import opened PalletRuns
  import opened PalletTheorems
  import opened Settlement
  import opened Conservation

  // ---------------------------------------------------------------------------
  // Unique hashes
  // ---------------------------------------------------------------------------

  /** Every user transaction had its nonce checked. */
  ghost predicate AllChecked(rs: seq<Record>) {
    forall i | 0 <= i < |rs| :: Version(rs[i].tx) != 0 || rs[i].tx.L1Handler?
  }

  /** No sender has used up the nonces of the field. */
  ghost predicate WithinField(rs: seq<Record>) {
    forall a :: UserCount(rs, a) <= PRIME
  }

  ghost predicate UniqueHashes(rs: seq<Record>) {
    forall i, j | 0 <= i < j < |rs| :: rs[i].hash != rs[j].hash
  }

  /** Transactions with the same hash are of one kind, from one sender, with one nonce. */
  lemma {:induction false} SameHashSameNonce(tx: Transaction, tx': Transaction, chainId: Felt)
    requires ComputeHash(tx, chainId, false) == ComputeHash(tx', chainId, false)
    ensures Version(tx) == Version(tx') && (tx.L1Handler? <==> tx'.L1Handler?) && Sender(tx) == Sender(tx')
    ensures Version(tx) != 0 || tx.L1Handler? ==> tx.nonce == tx'.nonce
  {
    HashCommits(tx, chainId, false, tx', chainId, false);
    CommittedKeeps(tx);
    CommittedKeeps(tx');
  }

  lemma {:induction false} CommittedKeeps(tx: Transaction)
    ensures var c := Committed(tx);
            && Version(c) == Version(tx) && Sender(c) == Sender(tx) && (c.L1Handler? <==> tx.L1Handler?)
            && (Version(tx) != 0 || tx.L1Handler? ==> c.nonce == tx.nonce)
  {
  }

  lemma {:induction false} HandlerNoncesDiffer(rs: seq<Record>, i: nat, j: nat)
    requires Distinct(L1Nonces(rs)) && i < j < |rs| && rs[i].tx.L1Handler? && rs[j].tx.L1Handler?
    ensures rs[i].tx.nonce != rs[j].tx.nonce
    decreases |rs|
  {
    var init := rs[..|rs| - 1];
    var before := L1Nonces(init);
    assert init[i] == rs[i];
    if j < |init| {
      assert Distinct(before) by {
        assert forall p | 0 <= p < |before| :: L1Nonces(rs)[p] == before[p];
      }
      HandlerNoncesDiffer(init, i, j);
    } else {
      L1NonceListed(init, i);
      var p :| 0 <= p < |before| && before[p] == rs[i].tx.nonce;
      assert L1Nonces(rs)[p] == before[p] && L1Nonces(rs)[|before|] == rs[j].tx.nonce;
    }
  }

  /** A user transaction whose nonce is not checked. */
  predicate Unchecked(tx: Transaction) {
    Version(tx) == 0 && !tx.L1Handler?
  }

  /** Two unchecked transactions that differ in nothing their hash speaks for. */
  predicate Twins(tx: Transaction, tx': Transaction) {
    Unchecked(tx) && Unchecked(tx') && Committed(tx) == Committed(tx')
  }

  ghost predicate NoTwins(rs: seq<Record>) {
    forall i, j | 0 <= i < j < |rs| :: !Twins(rs[i].tx, rs[j].tx)
  }

  /** What the invariants of the pallet say about transactions and their hashes. */
  ghost predicate Ordered(rs: seq<Record>, chainId: Felt) {
    && NoncesInOrder(rs) && Distinct(L1Nonces(rs)) && WithinField(rs)
    && forall i | 0 <= i < |rs| :: rs[i].hash == ComputeHash(rs[i].tx, chainId, false)
  }

  lemma {:induction false} ReachableIsOrdered(config: Config, l: Ledger)
    requires Reachable(config, l) && !config.disableNonceValidation && WithinField(AllRecords(l))
    ensures Ordered(AllRecords(l), config.chainId)
  {
    ReachableInv(config, l);
    var rs := AllRecords(l);
    forall i | 0 <= i < |rs| ensures rs[i].hash == ComputeHash(rs[i].tx, config.chainId, false) {
      assert rs[i] in rs;
    }
  }

  /** Two stored transactions share a hash if and only if they are unchecked twins. */
  lemma {:induction false} HashesMeetIffTwins(rs: seq<Record>, chainId: Felt, i: nat, j: nat)
    requires Ordered(rs, chainId) && i < j < |rs|
    ensures rs[i].hash == rs[j].hash <==> Twins(rs[i].tx, rs[j].tx)
  {
    HashCommits(rs[i].tx, chainId, false, rs[j].tx, chainId, false);
    if rs[i].hash == rs[j].hash && !Unchecked(rs[i].tx) {
      SameHashSameNonce(rs[i].tx, rs[j].tx, chainId);
      if rs[i].tx.L1Handler? {
        HandlerNoncesDiffer(rs, i, j);
      } else {
        OrderedNoncesDiffer(rs, i, j);
      }
      assert false;
    }
    if rs[i].hash == rs[j].hash {
      SameHashSameNonce(rs[i].tx, rs[j].tx, chainId);
    }
  }

  /** On every run with nonce validation on: no two stored transactions share a hash, across all
      blocks, if and only if no unchecked transaction was stored again. */
  lemma {:induction false} UniqueIffNoTwins(config: Config, l: Ledger)
    requires Reachable(config, l) && !config.disableNonceValidation && WithinField(AllRecords(l))
    ensures UniqueHashes(AllRecords(l)) <==> NoTwins(AllRecords(l))
  {
    ReachableIsOrdered(config, l);
    var rs := AllRecords(l);
    forall i, j | 0 <= i < j < |rs| ensures rs[i].hash != rs[j].hash <==> !Twins(rs[i].tx, rs[j].tx) {
      HashesMeetIffTwins(rs, config.chainId, i, j);
    }
  }

  /** In particular hashes are unique when every user transaction was checked. */
  lemma {:induction false} HashesAreUnique(config: Config, l: Ledger)
    requires Reachable(config, l) && !config.disableNonceValidation
    requires AllChecked(AllRecords(l)) && WithinField(AllRecords(l))
    ensures UniqueHashes(AllRecords(l))
  {
    UniqueIffNoTwins(config, l);
  }

  // ---------------------------------------------------------------------------
  // Messages to L1
  // ---------------------------------------------------------------------------

  /** The updates carry exactly what the transactions of the `k` blocks from `a` sent. */
  ghost predicate CarryAllMessages(us: seq<Update>, finished: seq<Finished>, a: nat, k: nat)
    requires a + k <= |finished|
  {
    UpdatesToL1(us) == SentBy(RecordsIn(finished, a, a + k))
  }

  /** No other transaction of `rs` that is a twin of the one at `q` sent a message. */
  ghost predicate TwinsSilent(rs: seq<Record>, q: nat)
    requires q < |rs|
  {
    forall p | 0 <= p < |rs| && p != q && Twins(rs[p].tx, rs[q].tx) :: rs[p].messages == []
  }

  /** In block `i` no transaction has a twin, in this block or before it, that sent a message. */
  ghost predicate BlockTwinsSilent(finished: seq<Finished>, i: nat)
    requires i < |finished|
  {
    var before, all := RecordsIn(finished, 0, i), RecordsIn(finished, 0, i + 1);
    forall q | |before| <= q < |all| :: TwinsSilent(all, q)
  }

  ghost predicate BlocksTwinsSilent(finished: seq<Finished>, a: nat, k: nat)
    requires a + k <= |finished|
  {
    forall i | a <= i < a + k :: BlockTwinsSilent(finished, i)
  }

  lemma {:induction false} UnsharedIffTwinsSilent(rs: seq<Record>, all: seq<Record>, rest: seq<Record>, chainId: Felt,
                                                  q: nat)
    requires Ordered(rs, chainId) && rs == all + rest && q < |all|
    ensures Unshared(all, q) <==> TwinsSilent(all, q)
  {
    forall p | 0 <= p < |all| && p != q ensures all[p].hash == all[q].hash <==> Twins(all[p].tx, all[q].tx) {
      assert rs[p] == all[p] && rs[q] == all[q];
      HashesMeetIffTwins(rs, chainId, if p < q then p else q, if p < q then q else p);
    }
  }

  lemma {:induction false} BlockUnsharedIffTwinsSilent(l: Ledger, chainId: Felt, i: nat)
    requires Ordered(AllRecords(l), chainId) && i < |l.finished|
    ensures BlockUnshared(l.finished, i) <==> BlockTwinsSilent(l.finished, i)
  {
    var before, all := RecordsIn(l.finished, 0, i), RecordsIn(l.finished, 0, i + 1);
    var rest := RecordsIn(l.finished, i + 1, |l.finished|) + l.records;
    RecordsAround(l, 0, i + 1);
    assert RecordsIn(l.finished, 0, 0) + all == all;
    assert |before| <= |all|;
    forall q | |before| <= q < |all| ensures Unshared(all, q) <==> TwinsSilent(all, q) {
      UnsharedIffTwinsSilent(AllRecords(l), all, rest, chainId, q);
    }
  }

  lemma {:induction false} StretchUnsharedIffTwinsSilent(l: Ledger, chainId: Felt, us: seq<Update>, a: nat, k: nat)
    requires Ordered(AllRecords(l), chainId) && a + k <= |l.finished|
    requires ConservedExactlyIfUnshared(us, l.finished, a, k)
    ensures CarryAllMessages(us, l.finished, a, k) <==> BlocksTwinsSilent(l.finished, a, k)
  {
    forall i | a <= i < a + k ensures BlockUnshared(l.finished, i) <==> BlockTwinsSilent(l.finished, i) {
      BlockUnsharedIffTwinsSilent(l, chainId, i);
    }
  }

  /** A stretch of settled blocks of a run, with the updates sent for it. */
  ghost predicate SettledStretch(config: Config, l: Ledger, w: World, s: L1State, k: nat, us: seq<Update>) {
    && Reachable(config, l) && WorldOf(l, config.chainId, w)
    && CanSettle(w, s, k) && s.number + k < |l.finished| && us == Settled(w, s, k)
  }

  /** On every run with nonce validation on, the updates of any stretch of settled blocks carry exactly
      what its transactions sent, in order, if and only if none of these has an unchecked twin, up to
      its own block, that sent a message. */
  lemma {:induction false} DeliveredIffTwinsSilent(config: Config, l: Ledger, w: World, s: L1State, k: nat,
                                                   us: seq<Update>)
    requires SettledStretch(config, l, w, s, k, us)
    requires !config.disableNonceValidation && WithinField(AllRecords(l))
    ensures CarryAllMessages(us, l.finished, s.number + 1, k) <==> BlocksTwinsSilent(l.finished, s.number + 1, k)
  {
    assert Ordered(AllRecords(l), config.chainId) by {
      ReachableIsOrdered(config, l);
    }
    assert ConservedExactlyIfUnshared(us, l.finished, s.number + 1, k) by {
      ReachableMessages(config, l, w, s, k, us);
    }
    StretchUnsharedIffTwinsSilent(l, config.chainId, us, s.number + 1, k);
  }

  lemma {:induction false} NoTwinsAreSilent(l: Ledger, i: nat)
    requires NoTwins(AllRecords(l)) && i < |l.finished|
    ensures BlockTwinsSilent(l.finished, i)
  {
    var all := RecordsIn(l.finished, 0, i + 1);
    RecordsAround(l, 0, i + 1);
    assert RecordsIn(l.finished, 0, 0) + all == all;
    forall p, q | 0 <= p < |all| && 0 <= q < |all| && p != q ensures !Twins(all[p].tx, all[q].tx) {
      assert AllRecords(l)[p] == all[p] && AllRecords(l)[q] == all[q];
    }
  }

  /** Where no unchecked transaction was stored again, messages to L1 are conserved. */
  lemma {:induction false} TwinFreeRunsDeliver(config: Config, l: Ledger, w: World, s: L1State, k: nat, us: seq<Update>)
    requires SettledStretch(config, l, w, s, k, us)
    requires !config.disableNonceValidation && WithinField(AllRecords(l)) && NoTwins(AllRecords(l))
    ensures CarryAllMessages(us, l.finished, s.number + 1, k)
  {
    DeliveredIffTwinsSilent(config, l, w, s, k, us);
    forall i | s.number + 1 <= i < s.number + 1 + k ensures BlockTwinsSilent(l.finished, i) {
      NoTwinsAreSilent(l, i);
    }
  }

  /** So they are on every run that checks every nonce. */
  lemma {:induction false} CheckedRunsDeliver(config: Config, l: Ledger, w: World, s: L1State, k: nat, us: seq<Update>)
    requires SettledStretch(config, l, w, s, k, us)
    requires !config.disableNonceValidation && WithinField(AllRecords(l)) && AllChecked(AllRecords(l))
    ensures CarryAllMessages(us, l.finished, s.number + 1, k)
  {
    TwinFreeRunsDeliver(config, l, w, s, k, us);
  }

  // ---------------------------------------------------------------------------
  // What the worker has sent
  // ---------------------------------------------------------------------------

  /** What a contract has received since some moment is conserved, and it received something exactly
      when it has moved on. */
  ghost predicate Delivered(finished: seq<Finished>, was: L1State, logWas: seq<Update>, now: L1State,
                            log: seq<Update>) {
    && was.number <= now.number && |logWas| <= |log| && log[..|logWas|] == logWas
    && (now.number == was.number ==> log == logWas)
    && (now.number > was.number ==>
          && now.number < |finished|
          && Conserved(log[|logWas|..], finished, was.number + 1, now.number - was.number))
  }

  lemma {:induction false} AdvancedIsDelivered(config: Config, l: Ledger, w: World, was: L1State, logWas: seq<Update>,
                                               now: L1State, log: seq<Update>)
    requires Reachable(config, l) && WorldOf(l, config.chainId, w) && Advanced(w, was, logWas, now, log)
    ensures Delivered(l.finished, was, logWas, now, log)
  {
    var k := now.number - was.number;
    if k > 0 {
      StretchConserved(config, l, w, was, k);
      SuffixDelivered(l.finished, was, logWas, Settled(w, was, k), now);
    } else {
      assert log == logWas + [] == logWas;
    }
  }

  lemma {:induction false} StretchConserved(config: Config, l: Ledger, w: World, s: L1State, k: nat)
    requires Reachable(config, l) && WorldOf(l, config.chainId, w) && CanSettle(w, s, k) && k > 0
    ensures s.number + k < |l.finished| && Conserved(Settled(w, s, k), l.finished, s.number + 1, k)
  {
    assert HasUpdate(w, s.number + k);
    EndToEnd(config, l, w, s, k, Settled(w, s, k));
  }

  lemma {:induction false} SuffixDelivered(finished: seq<Finished>, was: L1State, logWas: seq<Update>, us: seq<Update>,
                                           now: L1State)
    requires was.number < now.number < |finished|
    requires Conserved(us, finished, was.number + 1, now.number - was.number)
    ensures Delivered(finished, was, logWas, now, logWas + us)
  {
    var log := logWas + us;
    assert log[|logWas|..] == us && log[..|logWas|] == logWas;
  }

  /** The whole way: on the chain of any run of the pallet, whatever errors, lost acknowledgements and
      restarts the worker goes through, the updates the contract has received are conserved. */
  method SettleLedger(contract: Contract, ghost config: Config, ghost l: Ledger, w: World, episodes: seq<Episode>)
      returns (ending: Ending)
    requires Reachable(config, l) && WorldOf(l, config.chainId, w)
    requires forall i | 0 <= i < |episodes| :: ValidEpisode(w, episodes[i])
    modifies contract`state, contract`log
    ensures Delivered(l.finished, old(contract.state), old(contract.log), contract.state, contract.log)
    ensures ending.Ended? ==>
              ending.episode < |episodes| && AllSettled(episodes[ending.episode], contract.state)
  {
    assert Aligned(w) by {
      ReachableIsAligned(config, l, w);
    }
    ghost var starts;
    ending, starts := SyncState(contract, w, episodes);
    AdvancedIsDelivered(config, l, w, old(contract.state), old(contract.log), contract.state, contract.log);
  }
}
