/** What the invariant of the pallet means for replays, for the sequencer and for the genesis block. */
module PalletTheorems {
  import opened Felts
  import opened Transactions
  import opened Blocks
  import opened Pallet
  import opened PalletRuns

  // ---------------------------------------------------------------------------
  // Replay
  // ---------------------------------------------------------------------------

  lemma {:induction false} UserCountMonotone(rs: seq<Record>, i: nat, j: nat, a: Felt)
    requires i <= j <= |rs|
    ensures UserCount(rs[..i], a) <= UserCount(rs[..j], a)
    ensures i < j && Counts(rs[i].tx, a) ==> UserCount(rs[..i], a) < UserCount(rs[..j], a)
    decreases j
  {
    if i < j {
      assert rs[..j][..j - 1] == rs[..j - 1] && rs[..j][j - 1] == rs[j - 1];
      UserCountMonotone(rs, i, j - 1, a);
    }
  }

  /** No (sender, nonce) pair occurs twice, as long as no sender used up every nonce of the field. */
  ghost predicate NoReplay(rs: seq<Record>) {
    forall i, j | 0 <= i < j < |rs| && Version(rs[i].tx) != 0 && Version(rs[j].tx) != 0 ::
      Sender(rs[i].tx) == Sender(rs[j].tx) && UserCount(rs, Sender(rs[i].tx)) <= PRIME ==>
        rs[i].tx.nonce != rs[j].tx.nonce
  }

  lemma {:induction false} OrderedNoncesDiffer(rs: seq<Record>, i: nat, j: nat)
    requires NoncesInOrder(rs) && i < j < |rs| && Version(rs[i].tx) != 0 && Version(rs[j].tx) != 0
    requires Sender(rs[i].tx) == Sender(rs[j].tx) && UserCount(rs, Sender(rs[i].tx)) <= PRIME
    ensures rs[i].tx.nonce != rs[j].tx.nonce
  {
    var a := Sender(rs[i].tx);
    UserCountMonotone(rs, i, j, a);
    UserCountMonotone(rs, j, |rs|, a);
    assert rs[..|rs|] == rs;
    SmallMod(UserCount(rs[..i], a));
    SmallMod(UserCount(rs[..j], a));
  }

  /** With nonce validation on, no run stores a (sender, nonce) pair twice across all its blocks. */
  lemma {:induction false} NonceUsedOnce(config: Config, l: Ledger)
    requires !config.disableNonceValidation && Reachable(config, l)
    ensures NoReplay(AllRecords(l))
  {
    ReachableInv(config, l);
    OrderedNoncesNoReplay(AllRecords(l));
  }

  lemma {:induction false} OrderedNoncesNoReplay(rs: seq<Record>)
    requires NoncesInOrder(rs)
    ensures NoReplay(rs)
  {
    forall i, j | 0 <= i < j < |rs| && Version(rs[i].tx) != 0 && Version(rs[j].tx) != 0
                  && Sender(rs[i].tx) == Sender(rs[j].tx) && UserCount(rs, Sender(rs[i].tx)) <= PRIME
      ensures rs[i].tx.nonce != rs[j].tx.nonce
    {
      OrderedNoncesDiffer(rs, i, j);
    }
  }

  lemma {:induction false} L1MessagesGrow(config: Config, l: Ledger, steps: seq<Step>)
    requires Run(config, l, steps).Some?
    ensures l.state.l1Messages <= Run(config, l, steps).value.state.l1Messages
    decreases |steps|
  {
    if steps != [] {
      var init, step := steps[..|steps| - 1], steps[|steps| - 1];
      L1MessagesGrow(config, l, init);
      var l' := Run(config, l, init).value;
      if step.Apply? && Dispatch(config, l'.state, step.ext).Stored? {
        AcceptL1(config, l'.state, step.ext.tx, step.ext.classValid);
      } else {
        QuietStep(config, l', step);
      }
    }
  }

  /** A message from L1 that was stored once is refused ever after, on every continuation. */
  lemma {:induction false} L1MessageConsumedForever(config: Config, l: Ledger, steps: seq<Step>, i: nat,
                                                    again: Extrinsic)
    requires Reachable(config, l) && Run(config, l, steps).Some?
    requires i < |AllRecords(l)| && AllRecords(l)[i].tx.L1Handler?
    requires again.Submit? && again.tx.L1Handler? && again.tx.nonce == AllRecords(l)[i].tx.nonce
    ensures Dispatch(config, Run(config, l, steps).value.state, again).Refused?
    ensures again.tx.nonce in Run(config, l, steps).value.state.l1Messages
  {
    assert again.tx.nonce in l.state.l1Messages by {
      ReachableInv(config, l);
      L1NonceListed(AllRecords(l), i);
    }
    L1MessagesGrow(config, l, steps);
  }

  lemma {:induction false} L1NonceListed(rs: seq<Record>, i: nat)
    requires i < |rs| && rs[i].tx.L1Handler?
    ensures rs[i].tx.nonce in L1Nonces(rs)
    decreases |rs|
  {
    if i < |rs| - 1 {
      L1NonceListed(rs[..|rs| - 1], i);
    }
  }

  // ---------------------------------------------------------------------------
  // One valid sequencer address per block
  // ---------------------------------------------------------------------------

  function ApplyAll(config: Config, l: Ledger, exts: seq<Extrinsic>): Option<Ledger> {
    if exts == [] then Some(l)
    else
      match ApplyAll(config, l, exts[..|exts| - 1])
      case None => None
      case Some(l') => StepLedger(config, l', Apply(exts[|exts| - 1]))
  }

  function RunBlock(config: Config, l: Ledger, exts: seq<Extrinsic>, timestamp: nat): Option<Ledger> {
    match StepLedger(config, l, Initialize)
    case None => None
    case Some(begun) =>
      match ApplyAll(config, begun, exts)
      case None => None
      case Some(full) => StepLedger(config, full, Finalize(timestamp))
  }

  /** The calls that set the sequencer, in order. */
  function SequencerCalls(exts: seq<Extrinsic>): seq<Extrinsic> {
    if exts == [] then []
    else SequencerCalls(exts[..|exts| - 1]) + if exts[|exts| - 1].SetSequencerAddress? then [exts[|exts| - 1]] else []
  }

  predicate SetsSequencer(ext: Extrinsic) {
    ext.SetSequencerAddress? && !ext.signed && ext.addr.Some?
  }

  predicate OneValid(calls: seq<Extrinsic>) {
    |calls| == 1 && SetsSequencer(calls[0])
  }

  lemma {:induction false} ApplyAllFlag(config: Config, l: Ledger, exts: seq<Extrinsic>)
    requires PendingInv(config, l) && l.open && l.state.number > 1 && l.state.seqAddrUpdate == None
    ensures var calls := SequencerCalls(exts);
            var r := ApplyAll(config, l, exts);
            && (r.Some? <==> calls == [] || OneValid(calls))
            && (r.Some? ==>
                  && PendingInv(config, r.value) && r.value.open && r.value.state.number == l.state.number
                  && r.value.state.seqAddrUpdate == (if calls == [] then None else Some(true))
                  && (calls != [] ==> r.value.state.sequencer == calls[0].addr.value))
    decreases |exts|
  {
    if exts != [] {
      var init, ext := exts[..|exts| - 1], exts[|exts| - 1];
      ApplyAllFlag(config, l, init);
      var r := ApplyAll(config, l, init);
      if r.Some? {
        if StepLedger(config, r.value, Apply(ext)).Some? {
          PendingStep(config, r.value, Apply(ext));
        }
        if Dispatch(config, r.value.state, ext).Stored? {
          StoredExtends(config, r.value.state, ext);
        }
      }
    }
  }

  /** From block 2 on a block goes through if and only if it sets the sequencer exactly once, without
      a signature and to a valid address; the header then names that sequencer. */
  lemma {:induction false} BlockRunsWithOneSequencer(config: Config, l: Ledger, exts: seq<Extrinsic>, timestamp: nat)
    requires Reachable(config, l) && !l.open && l.state.number >= 1
    ensures var calls := SequencerCalls(exts);
            var r := RunBlock(config, l, exts, timestamp);
            && (r.Some? <==> OneValid(calls))
            && (r.Some? ==>
                  && |r.value.finished| == l.state.number + 2
                  && r.value.finished[l.state.number + 1].block.header.sequencer == calls[0].addr.value)
  {
    ReachableInv(config, l);
    var begun := StepLedger(config, l, Initialize).value;
    PendingStep(config, l, Initialize);
    ApplyAllFlag(config, begun, exts);
    ApplyAllKeepsFinished(config, begun, exts);
    var full := ApplyAll(config, begun, exts);
    if full.Some? {
      FinalizeFlag(config, full.value, timestamp);
    }
  }

  /** With aligned lists, the only assertion of the hook that can fail is the one on the flag. */
  lemma {:induction false} FinalizeFlag(config: Config, l: Ledger, timestamp: nat)
    requires PendingInv(config, l) && l.open
    ensures var r := StepLedger(config, l, Finalize(timestamp));
            && (r.Some? <==> l.state.seqAddrUpdate == Some(true))
            && (r.Some? ==>
                  && |r.value.finished| == |l.finished| + 1
                  && r.value.finished[|l.finished|].block.header.sequencer == l.state.sequencer)
  {
    assert |l.state.pending| == |l.state.pendingHashes|;
    if StepLedger(config, l, Finalize(timestamp)).Some? {
      FinalizeShape(config, l, Finalize(timestamp));
    }
  }

  lemma {:induction false} ApplyAllKeepsFinished(config: Config, l: Ledger, exts: seq<Extrinsic>)
    ensures ApplyAll(config, l, exts).Some? ==> ApplyAll(config, l, exts).value.finished == l.finished
    decreases |exts|
  {
    if exts != [] {
      ApplyAllKeepsFinished(config, l, exts[..|exts| - 1]);
    }
  }

  // ---------------------------------------------------------------------------
  // Blocks of reachable ledgers
  // ---------------------------------------------------------------------------

  lemma {:induction false} StepIsReachable(config: Config, l: Ledger, step: Step)
    requires Reachable(config, l) && StepLedger(config, l, step).Some?
    ensures Reachable(config, StepLedger(config, l, step).value)
  {
    var timestamp, contracts, classes, steps :|
      Run(config, GenesisLedger(config, timestamp, contracts, classes), steps) == Some(l);
    var more := steps + [step];
    assert more[..|more| - 1] == steps;
    assert Run(config, GenesisLedger(config, timestamp, contracts, classes), more) == StepLedger(config, l, step);
  }

  lemma {:induction false} ApplyAllIsReachable(config: Config, l: Ledger, exts: seq<Extrinsic>)
    requires Reachable(config, l) && ApplyAll(config, l, exts).Some?
    ensures Reachable(config, ApplyAll(config, l, exts).value)
    decreases |exts|
  {
    if exts != [] {
      ApplyAllIsReachable(config, l, exts[..|exts| - 1]);
      StepIsReachable(config, ApplyAll(config, l, exts[..|exts| - 1]).value, Apply(exts[|exts| - 1]));
    }
  }

  lemma {:induction false} BlockIsReachable(config: Config, l: Ledger, exts: seq<Extrinsic>, timestamp: nat)
    requires Reachable(config, l) && RunBlock(config, l, exts, timestamp).Some?
    ensures Reachable(config, RunBlock(config, l, exts, timestamp).value)
  {
    StepIsReachable(config, l, Initialize);
    var begun := StepLedger(config, l, Initialize).value;
    ApplyAllIsReachable(config, begun, exts);
    StepIsReachable(config, ApplyAll(config, begun, exts).value, Finalize(timestamp));
  }

  lemma {:induction false} GenesisIsReachable(config: Config, timestamp: nat, contracts: set<Felt>, classes: set<Felt>)
    ensures Reachable(config, GenesisLedger(config, timestamp, contracts, classes))
  {
    var l := GenesisLedger(config, timestamp, contracts, classes);
    assert Run(config, l, []) == Some(l);
  }

  /** A block as its author makes it: extrinsics and a timestamp. */
  datatype Proposal = Proposal(exts: seq<Extrinsic>, timestamp: nat)

  function RunBlocks(config: Config, l: Ledger, blocks: seq<Proposal>): Option<Ledger> {
    if blocks == [] then Some(l)
    else
      match RunBlocks(config, l, blocks[..|blocks| - 1])
      case None => None
      case Some(l') => RunBlock(config, l', blocks[|blocks| - 1].exts, blocks[|blocks| - 1].timestamp)
  }

  lemma {:induction false} RunBlocksFailsEarly(config: Config, l: Ledger, blocks: seq<Proposal>, i: nat)
    requires i <= |blocks| && RunBlocks(config, l, blocks[..i]).None?
    ensures RunBlocks(config, l, blocks).None?
    decreases |blocks| - i
  {
    if i < |blocks| {
      assert blocks[..i + 1][..i] == blocks[..i];
      RunBlocksFailsEarly(config, l, blocks, i + 1);
    } else {
      assert blocks[..i] == blocks;
    }
  }

  /** A block fails as soon as one of its extrinsics does. */
  lemma {:induction false} ApplyAllFailsEarly(config: Config, l: Ledger, exts: seq<Extrinsic>, i: nat)
    requires i <= |exts| && ApplyAll(config, l, exts[..i]).None?
    ensures ApplyAll(config, l, exts).None?
    decreases |exts| - i
  {
    if i < |exts| {
      assert exts[..i + 1][..i] == exts[..i];
      ApplyAllFailsEarly(config, l, exts, i + 1);
    } else {
      assert exts[..i] == exts;
    }
  }

  // ---------------------------------------------------------------------------
  // Genesis
  // ---------------------------------------------------------------------------

  /** The node embeds the default block in the genesis digest; the pallet stores its own block 0.
      The two have the same hash exactly when the protocol version and the genesis time are zero. */
  lemma {:induction false} GenesisDigestMatches(config: Config, timestamp: nat, contracts: set<Felt>,
                                                classes: set<Felt>)
    ensures HeaderHash(DEFAULT_BLOCK.header) == Genesis(config, timestamp, contracts, classes).0.blockHash[0]
            <==> config.protocolVersion == 0 && timestamp == 0
  {
    var (s, block) := Genesis(config, timestamp, contracts, classes);
    assert s.blockHash[0] == HeaderHash(block.header);
    HeaderHashCommits(DEFAULT_BLOCK.header, block.header);
  }
}
