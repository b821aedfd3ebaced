/** Accounts, classes and revert errors over every run of the pallet. */
module PalletRegistry {
  import opened Felts
  import opened Transactions
  import opened Blocks
  import opened Pallet
  import opened PalletRuns

  // ---------------------------------------------------------------------------
  // Revert errors
  // ---------------------------------------------------------------------------

  /** The revert error of the last transaction stored under a hash. */
  function LastRevert(rs: seq<Record>, h: Felt): Option<string> {
    if rs == [] then None
    else if rs[|rs| - 1].hash == h then rs[|rs| - 1].revertError
    else LastRevert(rs[..|rs| - 1], h)
  }

  function RevertOf(s: State, h: Felt): Option<string> {
    if h in s.txRevertError then Some(s.txRevertError[h]) else None
  }

  ghost predicate RevertInv(s: State, rs: seq<Record>) {
    forall h :: RevertOf(s, h) == LastRevert(rs, h)
  }

  /** What a step that stores no transaction leaves alone. */
  lemma {:induction false} QuietRegistry(config: Config, l: Ledger, step: Step)
    requires StepLedger(config, l, step).Some?
    requires !(step.Apply? && Dispatch(config, l.state, step.ext).Stored?)
    ensures var s := StepLedger(config, l, step).value.state;
            s.txRevertError == l.state.txRevertError && s.contracts == l.state.contracts && s.classes == l.state.classes
  {
    match step {
      case Initialize =>
      case Apply(ext) => NotStoredFrame(config, l.state, ext);
      case Finalize(_) =>
    }
  }

  /** How storing a transaction changes the parts this module is about. */
  ghost predicate Registers(s: State, s': State, r: Record, execution: Execution)
    requires execution.Completed?
  {
    && r.revertError == execution.revertError
    && s'.txRevertError == (if r.revertError.Some? then s.txRevertError[r.hash := r.revertError.value]
                            else s.txRevertError - {r.hash})
    && s'.contracts == s.contracts + execution.deployed && s'.classes == s.classes + execution.declared
  }

  lemma {:induction false} StoredRegisters(config: Config, s: State, ext: Extrinsic)
    requires Dispatch(config, s, ext).Stored?
    ensures ext.Submit? && ext.execution.Completed? && Dispatch(config, s, ext).record.tx == ext.tx
    ensures Registers(s, Dispatch(config, s, ext).state, Dispatch(config, s, ext).record, ext.execution)
    ensures Precheck(s, ext.tx, ext.classValid).None?
  {
    AcceptFrame(config, s, ext.tx, ext.classValid);
  }

  lemma {:induction false} RevertStored(s: State, s': State, rs: seq<Record>, r: Record, execution: Execution)
    requires RevertInv(s, rs) && execution.Completed? && Registers(s, s', r, execution)
    ensures RevertInv(s', rs + [r])
  {
    assert (rs + [r])[..|rs|] == rs;
    forall h ensures RevertOf(s', h) == LastRevert(rs + [r], h) {
      assert RevertOf(s, h) == LastRevert(rs, h);
    }
  }

  lemma {:induction false} RevertStep(config: Config, l: Ledger, step: Step)
    requires RevertInv(l.state, AllRecords(l)) && StepLedger(config, l, step).Some?
    ensures var l' := StepLedger(config, l, step).value;
            RevertInv(l'.state, AllRecords(l'))
  {
    if step.Apply? && Dispatch(config, l.state, step.ext).Stored? {
      StepRecords(config, l, step);
      StoredRegisters(config, l.state, step.ext);
      var outcome := Dispatch(config, l.state, step.ext);
      RevertStored(l.state, outcome.state, AllRecords(l), outcome.record, step.ext.execution);
    } else {
      QuietStep(config, l, step);
      QuietRegistry(config, l, step);
    }
  }

  /** On every run the stored revert error of a hash is that of the last transaction with the hash,
      and there is none exactly when that one was not reverted. */
  lemma {:induction false} RunReverts(config: Config, l: Ledger, steps: seq<Step>)
    requires RevertInv(l.state, AllRecords(l)) && Run(config, l, steps).Some?
    ensures var l' := Run(config, l, steps).value;
            RevertInv(l'.state, AllRecords(l'))
    decreases |steps|
  {
    if steps != [] {
      var init := steps[..|steps| - 1];
      RunReverts(config, l, init);
      RevertStep(config, Run(config, l, init).value, steps[|steps| - 1]);
    }
  }

  // ---------------------------------------------------------------------------
  // Accounts and classes
  // ---------------------------------------------------------------------------

  /** What the execution engine does for a transaction that is not reverted: a declaration writes
      the class, a deployment writes the account. */
  ghost predicate Effective(ext: Extrinsic) {
    ext.Submit? && ext.execution.Completed? && ext.execution.revertError.None? ==>
      && (IsDeclare(ext.tx) ==> ext.tx.classHash in ext.execution.declared)
      && (ext.tx.DeployAccount? ==> Sender(ext.tx) in ext.execution.deployed)
  }

  ghost predicate EffectiveSteps(steps: seq<Step>) {
    forall i | 0 <= i < |steps| && steps[i].Apply? :: Effective(steps[i].ext)
  }

  predicate Declares(r: Record, h: Felt) {
    IsDeclare(r.tx) && r.tx.classHash == h
  }

  predicate Deploys(r: Record, a: Felt) {
    r.tx.DeployAccount? && Sender(r.tx) == a
  }

  /** The account of a transaction that needs one is there; what was declared or deployed stays. */
  ghost predicate Registered(s: State, r: Record) {
    && (IsInvoke(r.tx) || IsDeclare(r.tx) ==> Sender(r.tx) in s.contracts)
    && (r.revertError.None? && IsDeclare(r.tx) ==> r.tx.classHash in s.classes)
    && (r.revertError.None? && r.tx.DeployAccount? ==> Sender(r.tx) in s.contracts)
  }

  /** After a declaration or deployment that was not reverted comes no other of the same. */
  ghost predicate OnceOnly(r: Record, later: Record) {
    r.revertError.None? ==>
      && (IsDeclare(r.tx) ==> !Declares(later, r.tx.classHash))
      && (r.tx.DeployAccount? ==> !Deploys(later, Sender(r.tx)))
  }

  ghost predicate RegistryInv(s: State, rs: seq<Record>) {
    && (forall i | 0 <= i < |rs| :: Registered(s, rs[i]))
    && (forall i, j | 0 <= i < j < |rs| :: OnceOnly(rs[i], rs[j]))
  }

  lemma {:induction false} RegistryStored(s: State, s': State, rs: seq<Record>, r: Record, ext: Extrinsic)
    requires RegistryInv(s, rs) && ext.Submit? && ext.execution.Completed? && Effective(ext)
    requires r.tx == ext.tx && Registers(s, s', r, ext.execution) && Precheck(s, ext.tx, ext.classValid).None?
    ensures RegistryInv(s', rs + [r])
  {
    var rs' := rs + [r];
    forall i | 0 <= i < |rs'| ensures Registered(s', rs'[i]) {
      if i < |rs| {
        assert Registered(s, rs[i]);
      }
    }
    forall i, j | 0 <= i < j < |rs'| ensures OnceOnly(rs'[i], rs'[j]) {
      assert rs'[i] == rs[i] && Registered(s, rs[i]);
      if j < |rs| {
        assert OnceOnly(rs[i], rs[j]);
      }
    }
  }

  lemma {:induction false} RegistryStep(config: Config, l: Ledger, step: Step)
    requires RegistryInv(l.state, AllRecords(l)) && StepLedger(config, l, step).Some?
    requires step.Apply? ==> Effective(step.ext)
    ensures var l' := StepLedger(config, l, step).value;
            RegistryInv(l'.state, AllRecords(l'))
  {
    if step.Apply? && Dispatch(config, l.state, step.ext).Stored? {
      StepRecords(config, l, step);
      StoredRegisters(config, l.state, step.ext);
      var outcome := Dispatch(config, l.state, step.ext);
      RegistryStored(l.state, outcome.state, AllRecords(l), outcome.record, step.ext);
    } else {
      QuietStep(config, l, step);
      QuietRegistry(config, l, step);
      SameRegistry(l.state, StepLedger(config, l, step).value.state, AllRecords(l));
    }
  }

  lemma {:induction false} SameRegistry(s: State, s': State, rs: seq<Record>)
    requires RegistryInv(s, rs) && s'.contracts == s.contracts && s'.classes == s.classes
    ensures RegistryInv(s', rs)
  {
    forall i | 0 <= i < |rs| ensures Registered(s', rs[i]) {
      assert Registered(s, rs[i]);
    }
  }

  lemma {:induction false} RunRegistry(config: Config, l: Ledger, steps: seq<Step>)
    requires RegistryInv(l.state, AllRecords(l)) && Run(config, l, steps).Some? && EffectiveSteps(steps)
    ensures var l' := Run(config, l, steps).value;
            RegistryInv(l'.state, AllRecords(l'))
    decreases |steps|
  {
    if steps != [] {
      var init := steps[..|steps| - 1];
      RunRegistry(config, l, init);
      RegistryStep(config, Run(config, l, init).value, steps[|steps| - 1]);
    }
  }

  /** On every run from a genesis state: revert errors are those of the last transaction of their
      hash, only deployed accounts ever act, and no class is declared and no account deployed
      again. */
  lemma {:induction false} RegistryFromGenesis(config: Config, timestamp: nat, contracts: set<Felt>, classes: set<Felt>,
                                               steps: seq<Step>)
    requires EffectiveSteps(steps)
    requires Run(config, GenesisLedger(config, timestamp, contracts, classes), steps).Some?
    ensures var l := Run(config, GenesisLedger(config, timestamp, contracts, classes), steps).value;
            RevertInv(l.state, AllRecords(l)) && RegistryInv(l.state, AllRecords(l))
  {
    var l := GenesisLedger(config, timestamp, contracts, classes);
    assert |l.finished| == 1 && l.finished[0].records == [] && l.finished[..0] == [];
    assert RecordsOf(l.finished) == RecordsOf(l.finished[..0]) + [] == [];
    assert AllRecords(l) == [];
    RunReverts(config, l, steps);
    RunRegistry(config, l, steps);
  }
}
