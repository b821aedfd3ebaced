/** The pallet with its storage updated in place. */
module StarknetPallet {
  import opened Felts
  import opened Transactions
  import opened Blocks
  import opened CallMerge
  import opened Pallet
  import opened PalletRuns
  import PalletTheorems

  datatype DispatchResult = Done | Failed(error: Error) | Panic

  ghost predicate Agrees(outcome: Outcome, before: State, after: State, r: DispatchResult) {
    match outcome
    case Stored(s, _) => r == Done && after == s
    case SequencerSet(s) => r == Done && after == s
    case Refused(error) => r == Failed(error) && after == before
    case Panicked => r == Panic && after == before
  }

  ghost function Reverted(m: map<Felt, string>, hash: Felt, error: Option<string>): map<Felt, string> {
    if error.Some? then m[hash := error.value] else m - {hash}
  }

  class Storage {
    const config: Config
    var number: nat
    var pending: seq<Transaction>
    var pendingHashes: seq<Felt>
    var txEvents: map<Felt, seq<Event>>
    var txMessages: map<Felt, seq<Message>>
    var txRevertError: map<Felt, string>
    var nonces: map<Felt, nat>
    var l1Messages: set<nat>
    var blockHash: map<nat, Felt>
    var sequencer: Felt
    var seqAddrUpdate: Option<bool>
    var contracts: set<Felt>
    var classes: set<Felt>

    function Snapshot(): State
      reads this
    {
      State(number, pending, pendingHashes, txEvents, txMessages, txRevertError, nonces, l1Messages, blockHash,
            sequencer, seqAddrUpdate, contracts, classes)
    }

    /** The genesis build: block 0 is stored before anything else. */
    constructor (config: Config, timestamp: nat, contracts: set<Felt>, classes: set<Felt>)
      ensures Snapshot() == Genesis(config, timestamp, contracts, classes).0 && this.config == config
    {
      this.config := config;
      number, pending, pendingHashes := 0, [], [];
      txEvents, txMessages, txRevertError := map[], map[], map[];
      nonces, l1Messages, blockHash := map[], {}, map[];
      sequencer, seqAddrUpdate := ZERO, None;
      this.contracts, this.classes := {}, {};
      new;
      var _ := StoreBlock(0, timestamp);
      this.contracts, this.classes := contracts, classes;
      seqAddrUpdate := Some(true);
    }

    method SetSequencerAddress(signed: bool, addr: Option<Felt>) returns (r: DispatchResult)
      modifies this
      ensures Agrees(SetSequencer(old(Snapshot()), signed, addr), old(Snapshot()), Snapshot(), r)
    {
      if signed {
        return Failed(BadOrigin);
      }
      if number > 1 && seqAddrUpdate.Some? {
        return Panic;
      }
      if addr.None? {
        return Failed(SequencerAddressNotValid);
      }
      sequencer := addr.value;
      seqAddrUpdate := Some(true);
      return Done;
    }

    /** Merges the events and the messages of one call tree into the lists of the transaction. */
    method EmitCall(hash: Felt, call: Option<CallInfo>)
      modifies this`txEvents, this`txMessages
      ensures txEvents == Append(old(txEvents), hash, CallEvents(call))
      ensures txMessages == Append(old(txMessages), hash, CallMessages(call))
    {
      if call.Some? {
        var events, _ := MergeInto(EventView(call.value), 0, []);
        assert events == Merge(EventView(call.value), 0).0;
        txEvents := Append(txEvents, hash, ToEvents(events));
        var messages, _ := MergeInto(MessageView(call.value), 0, []);
        assert messages == Merge(MessageView(call.value), 0).0;
        txMessages := Append(txMessages, hash, ToMessages(messages));
      }
    }

    method EmitAndStoreEvents(hash: Felt, executeCall: Option<CallInfo>, feeCall: Option<CallInfo>)
      modifies this`txEvents, this`txMessages
      ensures txEvents == Append(old(txEvents), hash, CallEvents(executeCall) + CallEvents(feeCall))
      ensures txMessages == Append(old(txMessages), hash, CallMessages(executeCall) + CallMessages(feeCall))
    {
      EmitCall(hash, executeCall);
      EmitCall(hash, feeCall);
      AppendTwice(old(txEvents), hash, CallEvents(executeCall), CallEvents(feeCall));
      AppendTwice(old(txMessages), hash, CallMessages(executeCall), CallMessages(feeCall));
    }

    method Invoke(signed: bool, tx: Transaction, execution: Execution) returns (r: DispatchResult)
      requires IsInvoke(tx)
      modifies this
      ensures Agrees(SubmitTransaction(config, old(Snapshot()), signed, tx, true, execution),
                     old(Snapshot()), Snapshot(), r)
    {
      if signed {
        return Failed(BadOrigin);
      }
      if Sender(tx) !in contracts {
        return Failed(AccountNotDeployed);
      }
      r := RunTransaction(tx, execution);
    }

    method Declare(signed: bool, tx: Transaction, classValid: bool, execution: Execution) returns (r: DispatchResult)
      requires IsDeclare(tx)
      modifies this
      ensures Agrees(SubmitTransaction(config, old(Snapshot()), signed, tx, classValid, execution),
                     old(Snapshot()), Snapshot(), r)
    {
      if signed {
        return Failed(BadOrigin);
      }
      if !classValid {
        return Failed(InvalidContractClassForThisDeclareVersion);
      }
      if tx.classHash in classes {
        return Failed(ClassHashAlreadyDeclared);
      }
      if Sender(tx) !in contracts {
        return Failed(AccountNotDeployed);
      }
      r := RunTransaction(tx, execution);
    }

    method DeployAccount(signed: bool, tx: Transaction, execution: Execution) returns (r: DispatchResult)
      requires tx.DeployAccount?
      modifies this
      ensures Agrees(SubmitTransaction(config, old(Snapshot()), signed, tx, true, execution),
                     old(Snapshot()), Snapshot(), r)
    {
      if signed {
        return Failed(BadOrigin);
      }
      if Sender(tx) in contracts {
        return Failed(AccountAlreadyDeployed);
      }
      r := RunTransaction(tx, execution);
    }

    /** The message is marked before it is executed; an error rolls the mark back. */
    method ConsumeL1Message(signed: bool, tx: Transaction, execution: Execution) returns (r: DispatchResult)
      requires tx.L1Handler?
      modifies this
      ensures Agrees(SubmitTransaction(config, old(Snapshot()), signed, tx, true, execution),
                     old(Snapshot()), Snapshot(), r)
    {
      if signed {
        return Failed(BadOrigin);
      }
      if tx.nonce in l1Messages {
        return Failed(L1MessageAlreadyExecuted);
      }
      var saved := l1Messages;
      l1Messages := l1Messages + {tx.nonce};
      r := RunTransaction(tx, execution);
      if r.Failed? {
        l1Messages := saved;
      }
    }

    /** The nonce, the execution and the storing of an accepted transaction; an error rolls the
        storage back. */
    method RunTransaction(tx: Transaction, execution: Execution) returns (r: DispatchResult)
      modifies this
      ensures match HandleNonce(config, old(Snapshot()), tx)
              case Some(advanced) =>
                if execution.Completed?
                then r == Done && Snapshot() == StoreTransaction(advanced, RecordOf(config, tx, execution), execution)
                else r == Failed(TransactionExecutionFailed) && Snapshot() == old(Snapshot())
              case None => r == Failed(TransactionExecutionFailed) && Snapshot() == old(Snapshot())
    {
      var saved := nonces;
      var nonceOk := AdvanceNonce(tx);
      if !nonceOk || execution.Rejected? {
        nonces := saved;
        return Failed(TransactionExecutionFailed);
      }
      Execute(tx, execution);
      return Done;
    }

    method AdvanceNonce(tx: Transaction) returns (ok: bool)
      modifies this`nonces
      ensures ok == HandleNonce(config, old(Snapshot()), tx).Some?
      ensures ok ==> Some(Snapshot()) == HandleNonce(config, old(Snapshot()), tx)
      ensures !ok ==> Snapshot() == old(Snapshot())
    {
      if config.disableNonceValidation || Version(tx) == 0 {
        return true;
      }
      var current := NonceOf(Snapshot(), Sender(tx));
      if current != tx.nonce {
        return false;
      }
      nonces := nonces[Sender(tx) := (current + 1) % PRIME];
      return true;
    }

    /** Takes over the answer of the execution engine and stores the transaction. */
    method Execute(tx: Transaction, execution: Execution)
      requires execution.Completed?
      modifies this
      ensures Snapshot() == StoreTransaction(old(Snapshot()), RecordOf(config, tx, execution), execution)
    {
      StoreResult(tx, ComputeHash(tx, config.chainId, false), execution);
    }

    method StoreResult(tx: Transaction, hash: Felt, execution: Execution)
      requires execution.Completed?
      modifies this`pending, this`pendingHashes, this`txEvents, this`txMessages
      modifies this`txRevertError, this`contracts, this`classes
      ensures pending == old(pending) + [tx] && pendingHashes == old(pendingHashes) + [hash]
      ensures var executed, fee := execution.executeCall, execution.feeCall;
              && txEvents == Append(old(txEvents), hash, CallEvents(executed) + CallEvents(fee))
              && txMessages == Append(old(txMessages), hash, CallMessages(executed) + CallMessages(fee))
      ensures txRevertError == Reverted(old(txRevertError), hash, execution.revertError)
      ensures contracts == old(contracts) + execution.deployed && classes == old(classes) + execution.declared
    {
      contracts, classes := contracts + execution.deployed, classes + execution.declared;
      EmitAndStoreEvents(hash, execution.executeCall, execution.feeCall);
      StorePending(tx, hash);
      SetRevertError(hash, execution.revertError);
    }

    method StorePending(tx: Transaction, hash: Felt)
      modifies this`pending, this`pendingHashes
      ensures pending == old(pending) + [tx] && pendingHashes == old(pendingHashes) + [hash]
    {
      pending := pending + [tx];
      pendingHashes := pendingHashes + [hash];
    }

    method SetRevertError(hash: Felt, error: Option<string>)
      modifies this`txRevertError
      ensures txRevertError == Reverted(old(txRevertError), hash, error)
    {
      if error.Some? {
        txRevertError := txRevertError[hash := error.value];
      } else {
        txRevertError := txRevertError - {hash};
      }
    }

    /** Reads and removes the events of the pending transactions. */
    method TakePendingEvents() returns (events: seq<Event>)
      modifies this`txEvents
      ensures (events, txEvents) == TakeEvents(old(txEvents), pendingHashes)
    {
      events := [];
      assert pendingHashes[0..] == pendingHashes;
      assert [] + TakeEvents(txEvents, pendingHashes).0 == TakeEvents(txEvents, pendingHashes).0;
      for i := 0 to |pendingHashes|
        invariant events + TakeEvents(txEvents, pendingHashes[i..]).0 == TakeEvents(old(txEvents), pendingHashes).0
        invariant TakeEvents(txEvents, pendingHashes[i..]).1 == TakeEvents(old(txEvents), pendingHashes).1
      {
        var h := pendingHashes[i];
        assert pendingHashes[i..][0] == h && pendingHashes[i..][1..] == pendingHashes[i + 1..];
        ghost var rest := TakeEvents(txEvents - {h}, pendingHashes[i + 1..]).0;
        assert events + (At(txEvents, h) + rest) == (events + At(txEvents, h)) + rest;
        events := events + At(txEvents, h);
        txEvents := txEvents - {h};
      }
      assert events + [] == events;
    }

    method StoreBlock(blockNumber: nat, timestamp: nat) returns (block: Block)
      modifies this
      ensures (Snapshot(), block) == Pallet.StoreBlock(config, old(Snapshot()), blockNumber, timestamp)
    {
      var parent := ParentBlockHash(Snapshot(), blockNumber);
      var events := TakePendingEvents();
      var header := Header(parent, blockNumber, sequencer, timestamp, |pending|, |events|,
                           config.protocolVersion, config.l1GasPrice, None);
      block := Block(header, pending);
      blockHash := blockHash[blockNumber := HeaderHash(header)];
      pending := [];
      pendingHashes := [];
    }

    method OnFinalize(timestamp: nat) returns (r: Option<Block>)
      modifies this
      ensures r.None? <==> Pallet.OnFinalize(config, old(Snapshot()), timestamp).None?
      ensures r.Some? ==> Some((Snapshot(), r.value)) == Pallet.OnFinalize(config, old(Snapshot()), timestamp)
    {
      var updated := seqAddrUpdate;
      seqAddrUpdate := None;
      if updated != Some(true) || |pending| != |pendingHashes| {
        return None;
      }
      var block := StoreBlock(number, timestamp);
      return Some(block);
    }

    method ApplyExtrinsic(ext: Extrinsic) returns (r: DispatchResult)
      modifies this
      ensures Agrees(Dispatch(config, old(Snapshot()), ext), old(Snapshot()), Snapshot(), r)
    {
      match ext {
        case SetSequencerAddress(signed, addr) => r := SetSequencerAddress(signed, addr);
        case Submit(signed, tx, classValid, execution) =>
          if IsInvoke(tx) {
            r := Invoke(signed, tx, execution);
          } else if IsDeclare(tx) {
            r := Declare(signed, tx, classValid, execution);
          } else if tx.DeployAccount? {
            r := DeployAccount(signed, tx, execution);
          } else {
            r := ConsumeL1Message(signed, tx, execution);
          }
      }
    }

    /** The extrinsics of a block, up to a panic or a failed mandatory call. */
    method ApplyExtrinsics(ghost l: Ledger, exts: seq<Extrinsic>) returns (ok: bool)
      requires l.open && l.state == Snapshot()
      modifies this
      ensures ok <==> PalletTheorems.ApplyAll(config, l, exts).Some?
      ensures ok ==> PalletTheorems.ApplyAll(config, l, exts).value.state == Snapshot()
      ensures ok ==> PalletTheorems.ApplyAll(config, l, exts).value.open
    {
      ghost var now := l;
      for i := 0 to |exts|
        invariant PalletTheorems.ApplyAll(config, l, exts[..i]) == Some(now) && now.open && now.state == Snapshot()
      {
        assert exts[..i + 1][..i] == exts[..i];
        var r := ApplyExtrinsic(exts[i]);
        if r.Panic? || (r.Failed? && exts[i].SetSequencerAddress?) {
          PalletTheorems.ApplyAllFailsEarly(config, l, exts, i + 1);
          return false;
        }
        now := StepLedger(config, now, Apply(exts[i])).value;
      }
      assert exts[..|exts|] == exts;
      return true;
    }

    /** One whole block on the storage.  It goes through exactly when the specification does, leaves
        the specified storage, and what it leaves is reachable again, so every invariant of the runs
        holds of the storage after every block. */
    method RunBlock(ghost l: Ledger, exts: seq<Extrinsic>, timestamp: nat) returns (r: Option<Block>)
      requires Reachable(config, l) && !l.open && l.state == Snapshot()
      modifies this
      ensures r.Some? <==> PalletTheorems.RunBlock(config, l, exts, timestamp).Some?
      ensures r.Some? ==>
                var l' := PalletTheorems.RunBlock(config, l, exts, timestamp).value;
                && l'.state == Snapshot() && !l'.open && |l'.finished| == |l.finished| + 1
                && r.value == l'.finished[|l.finished|].block
                && Reachable(config, l') && Inv(config, l') && (!config.disableNonceValidation ==> NonceInv(l'))
    {
      number := number + 1;
      ghost var begun := StepLedger(config, l, Initialize).value;
      var ok := ApplyExtrinsics(begun, exts);
      if !ok {
        return None;
      }
      PalletTheorems.ApplyAllKeepsFinished(config, begun, exts);
      r := OnFinalize(timestamp);
      if r.Some? {
        PalletTheorems.BlockIsReachable(config, l, exts, timestamp);
        ReachableInv(config, PalletTheorems.RunBlock(config, l, exts, timestamp).value);
      }
    }
  }

  /** Blocks from the genesis state on, until one fails.  The storage ends as the specification says,
      in a state of which every invariant of the runs holds. */
  method RunChain(config: Config, timestamp: nat, contracts: set<Felt>, classes: set<Felt>,
                  blocks: seq<PalletTheorems.Proposal>)
      returns (storage: Storage, ok: bool)
    ensures ok <==>
            PalletTheorems.RunBlocks(config, GenesisLedger(config, timestamp, contracts, classes), blocks).Some?
    ensures ok ==>
              var l := PalletTheorems.RunBlocks(
                         config, GenesisLedger(config, timestamp, contracts, classes), blocks).value;
              && storage.Snapshot() == l.state && !l.open && |l.finished| == |blocks| + 1
              && Reachable(config, l) && Inv(config, l) && (!config.disableNonceValidation ==> NonceInv(l))
  {
    storage := new Storage(config, timestamp, contracts, classes);
    ghost var genesis := GenesisLedger(config, timestamp, contracts, classes);
    ghost var l := genesis;
    PalletTheorems.GenesisIsReachable(config, timestamp, contracts, classes);
    for i := 0 to |blocks|
      invariant PalletTheorems.RunBlocks(config, genesis, blocks[..i]) == Some(l) && storage.config == config
      invariant Reachable(config, l) && !l.open && l.state == storage.Snapshot() && |l.finished| == i + 1
    {
      assert blocks[..i + 1][..i] == blocks[..i];
      var block := storage.RunBlock(l, blocks[i].exts, blocks[i].timestamp);
      if block.None? {
        PalletTheorems.RunBlocksFailsEarly(config, genesis, blocks, i + 1);
        return storage, false;
      }
      l := PalletTheorems.RunBlock(config, l, blocks[i].exts, blocks[i].timestamp).value;
    }
    assert blocks[..|blocks|] == blocks;
    ReachableInv(config, l);
    return storage, true;
  }

  lemma {:induction false} AppendTwice<V>(m: map<Felt, seq<V>>, h: Felt, a: seq<V>, b: seq<V>)
    ensures Append(Append(m, h, a), h, b) == Append(m, h, a + b)
  {
    if a == [] {
      assert a + b == b;
    } else if b == [] {
      assert a + b == a;
    } else {
      assert At(m, h) + a + b == At(m, h) + (a + b);
    }
  }
}
