/**
 A run of the pallet on which messages to L1 are not conserved: version 0 invocations carry no nonce,
 so one can be submitted twice.
 */
module Replay {
  import opened Felts
  import opened Transactions
  import opened Blocks
  import opened CallMerge
  import opened Pallet
  import opened PalletRuns
  import opened Settlement
  import opened Conservation
  import opened Delivery

  /** An invocation of the account by an old-style transaction, whose call sends one message. */
  function ReplayedTx(account: Felt): Transaction {
    InvokeV0(0, [], account, ZERO, [])
  }

  function SendingCall(account: Felt, content: MessageContent): CallInfo {
    CallInfo(account, [], [Ordered(0, content)], [])
  }

  function Submission(account: Felt, content: MessageContent): Extrinsic {
    Submit(false, ReplayedTx(account), true, Completed(Some(SendingCall(account, content)), None, None, {}, {}))
  }

  /** Block 1 holds the same submission twice. */
  function ReplaySteps(account: Felt, content: MessageContent, timestamp: nat): seq<Step> {
    [Initialize, Apply(Submission(account, content)), Apply(Submission(account, content)), Finalize(timestamp)]
  }

  function ReplayRecord(config: Config, account: Felt, content: MessageContent): Record {
    var tx := ReplayedTx(account);
    Record(tx, ComputeHash(tx, config.chainId, false), [], [Message(account, content)], None)
  }

  lemma {:induction false} SendsOneMessage(account: Felt, content: MessageContent)
    ensures CallMessages(Some(SendingCall(account, content))) == [Message(account, content)]
    ensures CallEvents(Some(SendingCall(account, content))) == []
  {
    var c := MessageView(SendingCall(account, content));
    assert c.inner == [] && c.items == [Ordered(0, content)];
    assert Walk(c, 1, 0, 1) == ([], 1);
    assert Walk(c, 0, 0, 0).0 == [Emit(c, 0)];
    var e := EventView(SendingCall(account, content));
    assert e.inner == [] && e.items == [];
    assert Walk(e, 0, 0, 0).0 == [];
  }

  /** The submission is stored whenever the account is deployed, however often it was before. */
  lemma {:induction false} SubmissionIsStored(config: Config, s: State, account: Felt, content: MessageContent)
    requires account in s.contracts
    ensures var outcome := Dispatch(config, s, Submission(account, content));
            && outcome.Stored? && outcome.record == ReplayRecord(config, account, content)
            && outcome.state.contracts == s.contracts && outcome.state.seqAddrUpdate == s.seqAddrUpdate
            && outcome.state.pending == s.pending + [ReplayedTx(account)]
            && |outcome.state.pendingHashes| == |s.pendingHashes| + 1
  {
    SendsOneMessage(account, content);
  }

  lemma {:induction false} RunFour(config: Config, l: Ledger, a: Step, b: Step, c: Step, d: Step, l1: Ledger,
                                   l2: Ledger, l3: Ledger)
    requires StepLedger(config, l, a) == Some(l1) && StepLedger(config, l1, b) == Some(l2)
    requires StepLedger(config, l2, c) == Some(l3)
    ensures Run(config, l, [a, b, c, d]) == StepLedger(config, l3, d)
  {
    var steps := [a, b, c, d];
    assert steps[..3] == [a, b, c] && steps[..3][..2] == [a, b] && steps[..3][..2][..1] == [a];
    assert steps[..3][..2][..1][..0] == [];
    assert Run(config, l, steps[..3][..2][..1]) == Some(l1);
    assert Run(config, l, steps[..3][..2]) == Some(l2);
    assert Run(config, l, steps[..3]) == Some(l3);
  }

  function ReplayRun(config: Config, account: Felt, content: MessageContent, timestamp: nat): Option<Ledger> {
    Run(config, GenesisLedger(config, 0, {account}, {}), ReplaySteps(account, content, timestamp))
  }

  /** The run goes through, and block 1 stores the same record twice. */
  lemma {:induction false} ReplayRuns(config: Config, account: Felt, content: MessageContent, timestamp: nat)
    ensures var run := ReplayRun(config, account, content, timestamp);
            && run.Some?
            && var l, r := run.value, ReplayRecord(config, account, content);
               && |l.finished| == 2 && l.finished[0].records == [] && l.finished[1].records == [r, r]
               && l.finished[1].block.transactions == [ReplayedTx(account), ReplayedTx(account)]
  {
    var step := Apply(Submission(account, content));
    var l0 := GenesisLedger(config, 0, {account}, {});
    var l1 := StepLedger(config, l0, Initialize).value;
    var l2 := SubmitOnce(config, l1, account, content);
    var l3 := SubmitOnce(config, l2, account, content);
    RunFour(config, l0, Initialize, step, step, Finalize(timestamp), l1, l2, l3);
    FinalizeStores(config, l3, timestamp);
  }

  lemma {:induction false} SubmitOnce(config: Config, l: Ledger, account: Felt, content: MessageContent)
      returns (l': Ledger)
    requires l.open && account in l.state.contracts
    ensures StepLedger(config, l, Apply(Submission(account, content))) == Some(l')
    ensures l'.open && l'.finished == l.finished && l'.records == l.records + [ReplayRecord(config, account, content)]
    ensures l'.state.contracts == l.state.contracts && l'.state.seqAddrUpdate == l.state.seqAddrUpdate
    ensures l'.state.pending == l.state.pending + [ReplayedTx(account)]
    ensures |l'.state.pendingHashes| == |l.state.pendingHashes| + 1
  {
    SubmissionIsStored(config, l.state, account, content);
    l' := StepLedger(config, l, Apply(Submission(account, content))).value;
  }

  lemma {:induction false} FinalizeStores(config: Config, l: Ledger, timestamp: nat)
    requires l.open && l.state.seqAddrUpdate == Some(true) && |l.state.pending| == |l.state.pendingHashes|
    ensures var r := StepLedger(config, l, Finalize(timestamp));
            && r.Some? && |r.value.finished| == |l.finished| + 1 && r.value.finished[..|l.finished|] == l.finished
            && r.value.finished[|l.finished|].records == l.records
            && r.value.finished[|l.finished|].block.transactions == l.state.pending
  {
  }

  /** For every configuration, account, message and time: the run with the replay leads to a ledger
      whose block 1 can be settled, and its update does not carry what its transactions sent. */
  lemma {:induction false} ReplayIsNotConserved(config: Config, account: Felt, content: MessageContent, timestamp: nat,
                                                l: Ledger, w: World, root: Felt)
    requires ReplayRun(config, account, content, timestamp) == Some(l) && WorldOf(l, config.chainId, w)
    ensures var s := L1State(root, 0);
            && CanSettle(w, s, 1) && SettledStretch(config, l, w, s, 1, Settled(w, s, 1))
            && !CarryAllMessages(Settled(w, s, 1), l.finished, 1, 1)
  {
    ReplayRuns(config, account, content, timestamp);
    assert Reachable(config, l);
    ReplaySettles(l, config.chainId, w, account, root);
    ReplayIsShared(config, l, account, content);
    SharedIsNotConserved(config, l, w, L1State(root, 0));
  }

  lemma {:induction false} SharedIsNotConserved(config: Config, l: Ledger, w: World, s: L1State)
    requires Reachable(config, l) && WorldOf(l, config.chainId, w) && |l.finished| == 2
    requires s.number == 0 && CanSettle(w, s, 1) && !BlocksUnshared(l.finished, 1, 2)
    ensures SettledStretch(config, l, w, s, 1, Settled(w, s, 1))
    ensures !CarryAllMessages(Settled(w, s, 1), l.finished, 1, 1)
  {
    var us := Settled(w, s, 1);
    assert ConservedExactlyIfUnshared(us, l.finished, 1, 1) by {
      ReachableMessages(config, l, w, s, 1, us);
    }
    SharedIsNotCarried(us, l.finished, 1, 1);
  }

  lemma {:induction false} SharedIsNotCarried(us: seq<Update>, finished: seq<Finished>, a: nat, k: nat)
    requires a + k <= |finished| && ConservedExactlyIfUnshared(us, finished, a, k)
    requires !BlocksUnshared(finished, a, a + k)
    ensures !CarryAllMessages(us, finished, a, k)
  {
  }

  lemma {:induction false} ReplaySettles(l: Ledger, chainId: Felt, w: World, account: Felt, root: Felt)
    requires WorldOf(l, chainId, w) && |l.finished| == 2
    requires l.finished[1].block.transactions == [ReplayedTx(account), ReplayedTx(account)]
    ensures CanSettle(w, L1State(root, 0), 1)
  {
    assert HasUpdate(w, 1);
  }

  lemma {:induction false} ReplayIsShared(config: Config, l: Ledger, account: Felt, content: MessageContent)
    requires |l.finished| == 2 && l.finished[0].records == []
    requires var r := ReplayRecord(config, account, content); l.finished[1].records == [r, r]
    ensures !BlocksUnshared(l.finished, 1, 2)
  {
    var r := ReplayRecord(config, account, content);
    assert RecordsIn(l.finished, 0, 0) == [];
    assert RecordsIn(l.finished, 0, 1) == [];
    assert RecordsIn(l.finished, 0, 2) == [r, r];
    assert !Unshared([r, r], 0) by {
      assert [r, r][1].hash == [r, r][0].hash && [r, r][1].messages != [];
    }
    assert !BlockUnshared(l.finished, 1);
  }
}
