/** What holds after every run of the pallet, from the genesis state on. */
module PalletRuns {
  import opened Basics
  import opened Felts
  import opened Transactions
  import opened Blocks
  import opened Pallet

  function RecordsOf(finished: seq<Finished>): seq<Record> {
    if finished == [] then [] else RecordsOf(finished[..|finished| - 1]) + finished[|finished| - 1].records
  }

  /** Every transaction stored so far, in finished blocks and in the open one, in order. */
  function AllRecords(l: Ledger): seq<Record> {
    RecordsOf(l.finished) + l.records
  }

  /** The transactions a step stores. */
  function StoredBy(config: Config, l: Ledger, step: Step): seq<Record> {
    if step.Apply? && Dispatch(config, l.state, step.ext).Stored?
    then [Dispatch(config, l.state, step.ext).record]
    else []
  }

  lemma {:induction false} StepRecords(config: Config, l: Ledger, step: Step)
    requires StepLedger(config, l, step).Some?
    ensures AllRecords(StepLedger(config, l, step).value) == AllRecords(l) + StoredBy(config, l, step)
  {
    var l' := StepLedger(config, l, step).value;
    match step {
      case Initialize =>
      case Apply(ext) =>
        assert l'.records == l.records + StoredBy(config, l, step);
        assert AllRecords(l') == AllRecords(l) + StoredBy(config, l, step);
      case Finalize(_) =>
        assert l'.finished[..|l'.finished| - 1] == l.finished;
    }
  }

  // ---------------------------------------------------------------------------
  // Pending transactions and their events
  // ---------------------------------------------------------------------------

  function Txs(rs: seq<Record>): seq<Transaction> {
    seq(|rs|, i requires 0 <= i < |rs| => rs[i].tx)
  }

  function Hashes(rs: seq<Record>): seq<Felt> {
    seq(|rs|, i requires 0 <= i < |rs| => rs[i].hash)
  }

  function EventsFor(rs: seq<Record>, h: Felt): seq<Event> {
    if rs == [] then []
    else EventsFor(rs[..|rs| - 1], h) + if rs[|rs| - 1].hash == h then rs[|rs| - 1].events else []
  }

  function TotalEvents(rs: seq<Record>): nat {
    if rs == [] then 0 else TotalEvents(rs[..|rs| - 1]) + |rs[|rs| - 1].events|
  }

  ghost predicate PendingInv(config: Config, l: Ledger) {
    && (!l.open ==> l.records == [])
    && l.state.pending == Txs(l.records) && l.state.pendingHashes == Hashes(l.records)
    && (forall r | r in l.records :: r.hash == ComputeHash(r.tx, config.chainId, false))
    && (forall h :: At(l.state.txEvents, h) == EventsFor(l.records, h))
    && (forall h | h in l.state.txEvents :: h in l.state.pendingHashes)
  }

  /** How storing a transaction changes the storage. */
  ghost predicate Extends(config: Config, s: State, s': State, r: Record) {
    && r.hash == ComputeHash(r.tx, config.chainId, false)
    && s'.pending == s.pending + [r.tx] && s'.pendingHashes == s.pendingHashes + [r.hash]
    && s'.txEvents == Append(s.txEvents, r.hash, r.events)
    && s'.txMessages == Append(s.txMessages, r.hash, r.messages)
    && s'.number == s.number && s'.blockHash == s.blockHash
    && s'.sequencer == s.sequencer && s'.seqAddrUpdate == s.seqAddrUpdate
  }

  lemma {:induction false} AcceptFrame(config: Config, s: State, tx: Transaction, classValid: bool)
    requires Accept(config, s, tx, classValid).Accepted?
    ensures var s' := Accept(config, s, tx, classValid).state;
            s'.(nonces := s.nonces, l1Messages := s.l1Messages) == s
  {
  }

  lemma {:induction false} StoredExtends(config: Config, s: State, ext: Extrinsic)
    requires Dispatch(config, s, ext).Stored?
    ensures Extends(config, s, Dispatch(config, s, ext).state, Dispatch(config, s, ext).record)
    ensures ext.Submit? && Dispatch(config, s, ext).record.tx == ext.tx
  {
    AcceptFrame(config, s, ext.tx, ext.classValid);
  }

  lemma {:induction false} PendingStored(config: Config, l: Ledger, s: State, r: Record)
    requires PendingInv(config, l) && l.open && Extends(config, l.state, s, r)
    ensures PendingInv(config, l.(state := s, records := l.records + [r]))
  {
    var rs := l.records + [r];
    assert rs[..|l.records|] == l.records;
    assert Hashes(rs) == Hashes(l.records) + [r.hash];
    assert Txs(rs) == Txs(l.records) + [r.tx];
    forall h ensures At(s.txEvents, h) == EventsFor(rs, h) {
      assert At(l.state.txEvents, h) == EventsFor(l.records, h);
    }
  }

  /** What the hook leaves behind and what it puts in the digest. */
  ghost predicate Finalizes(config: Config, l: Ledger, l': Ledger, timestamp: nat) {
    && |l'.finished| == |l.finished| + 1 && l'.finished[..|l.finished|] == l.finished
    && !l'.open && l'.records == []
    && l'.state == l.state.(seqAddrUpdate := None, pending := [], pendingHashes := [], txEvents := map[],
                            blockHash := l'.state.blockHash)
    && var f := l'.finished[|l.finished|];
       && f.records == l.records && f.storage == l'.state && f.block.transactions == Txs(l.records)
       && f.block.header == Header(
            ParentBlockHash(l.state, l.state.number), l.state.number, l.state.sequencer, timestamp,
            |l.records|, TotalEvents(l.records), config.protocolVersion, config.l1GasPrice, None)
       && l'.state.blockHash == l.state.blockHash[l.state.number := HeaderHash(f.block.header)]
  }

  lemma {:induction false} TakesAllEvents(config: Config, l: Ledger)
    requires PendingInv(config, l)
    ensures |TakeEvents(l.state.txEvents, l.state.pendingHashes).0| == TotalEvents(l.records)
    ensures TakeEvents(l.state.txEvents, l.state.pendingHashes).1 == map[]
  {
    assert forall i | 0 <= i < |l.records| :: l.records[i].hash == l.state.pendingHashes[i];
    TakeEventsFacts(l.state.txEvents, l.state.pendingHashes, l.records);
  }

  lemma {:induction false} FinalizeShape(config: Config, l: Ledger, step: Step)
    requires PendingInv(config, l) && step.Finalize? && StepLedger(config, l, step).Some?
    ensures Finalizes(config, l, StepLedger(config, l, step).value, step.timestamp)
  {
    TakesAllEvents(config, l);
  }

  lemma {:induction false} PendingStep(config: Config, l: Ledger, step: Step)
    requires PendingInv(config, l) && StepLedger(config, l, step).Some?
    ensures PendingInv(config, StepLedger(config, l, step).value)
  {
    match step {
      case Initialize =>
      case Apply(ext) =>
        var outcome := Dispatch(config, l.state, ext);
        if outcome.Stored? {
          StoredExtends(config, l.state, ext);
          PendingStored(config, l, outcome.state, outcome.record);
        }
      case Finalize(_) =>
        FinalizeShape(config, l, step);
    }
  }

  function Without(rs: seq<Record>, h: Felt): seq<Record> {
    if rs == [] then []
    else Without(rs[..|rs| - 1], h) + if rs[|rs| - 1].hash == h then [] else [rs[|rs| - 1]]
  }

  lemma {:induction false} WithoutKeepsOthers(rs: seq<Record>, h: Felt, k: Felt)
    ensures EventsFor(Without(rs, h), k) == if k == h then [] else EventsFor(rs, k)
    decreases |rs|
  {
    if rs != [] {
      var init, last := rs[..|rs| - 1], rs[|rs| - 1];
      WithoutKeepsOthers(init, h, k);
      if last.hash != h {
        assert Without(rs, h) == Without(init, h) + [last];
        assert Without(rs, h)[..|Without(init, h)|] == Without(init, h);
      } else {
        assert Without(rs, h) == Without(init, h);
      }
    }
  }

  lemma {:induction false} WithoutTotal(rs: seq<Record>, h: Felt)
    ensures TotalEvents(rs) == TotalEvents(Without(rs, h)) + |EventsFor(rs, h)|
    decreases |rs|
  {
    if rs != [] {
      var init, last := rs[..|rs| - 1], rs[|rs| - 1];
      WithoutTotal(init, h);
      if last.hash != h {
        assert Without(rs, h) == Without(init, h) + [last];
        assert Without(rs, h)[..|Without(init, h)|] == Without(init, h);
      } else {
        assert Without(rs, h) == Without(init, h);
      }
    }
  }

  lemma {:induction false} WithoutMembers(rs: seq<Record>, h: Felt)
    ensures forall r | r in Without(rs, h) :: r in rs && r.hash != h
    decreases |rs|
  {
    if rs != [] {
      WithoutMembers(rs[..|rs| - 1], h);
    }
  }

  /** Taking the events of the pending hashes one after the other yields every event once, even
      when a hash is listed twice, and leaves nothing behind. */
  lemma {:induction false} TakeEventsFacts(m: map<Felt, seq<Event>>, hashes: seq<Felt>, rs: seq<Record>)
    requires forall h :: At(m, h) == EventsFor(rs, h)
    requires forall r | r in rs :: r.hash in hashes
    requires forall h | h in m :: h in hashes
    ensures |TakeEvents(m, hashes).0| == TotalEvents(rs)
    ensures TakeEvents(m, hashes).1 == map[]
    decreases |hashes|
  {
    if hashes != [] {
      var h, rs' := hashes[0], Without(rs, hashes[0]);
      var m' := m - {h};
      forall k ensures At(m', k) == EventsFor(rs', k) {
        WithoutKeepsOthers(rs, h, k);
        assert At(m, k) == EventsFor(rs, k);
      }
      WithoutTotal(rs, h);
      WithoutMembers(rs, h);
      assert At(m, h) == EventsFor(rs, h);
      TakeEventsFacts(m', hashes[1..], rs');
    }
  }

  // ---------------------------------------------------------------------------
  // The chain of blocks
  // ---------------------------------------------------------------------------

  ghost predicate BlockInv(l: Ledger, i: nat)
    requires i < |l.finished|
  {
    var f := l.finished[i];
    && f.block.transactions == Txs(f.records)
    && f.block.header.number == i
    && f.block.header.transactionCount == |f.records|
    && f.block.header.eventCount == TotalEvents(f.records)
    && f.block.header.parentHash == (if i == 0 then ZERO else HeaderHash(l.finished[i - 1].block.header))
    && i in l.state.blockHash && l.state.blockHash[i] == HeaderHash(f.block.header)
  }

  /** Block numbers equal Substrate numbers, the counts in the header are the real ones, and the
      parent hashes link every block back to block 0. */
  ghost predicate ChainInv(l: Ledger) {
    && |l.finished| == l.state.number + (if l.open then 0 else 1)
    && |l.finished| > 0
    && forall i | 0 <= i < |l.finished| :: BlockInv(l, i)
  }

  lemma {:induction false} ChainFinalized(config: Config, l: Ledger, l': Ledger, timestamp: nat)
    requires ChainInv(l) && l.open && Finalizes(config, l, l', timestamp)
    ensures ChainInv(l')
  {
    forall i | 0 <= i < |l'.finished| ensures BlockInv(l', i) {
      if i < |l.finished| {
        assert BlockInv(l, i) && l'.finished[i] == l.finished[i];
        assert i > 0 ==> l'.finished[i - 1] == l.finished[i - 1];
      } else {
        assert BlockInv(l, i - 1) && l'.finished[i - 1] == l.finished[i - 1];
      }
    }
  }

  lemma {:induction false} ChainStep(config: Config, l: Ledger, step: Step)
    requires PendingInv(config, l) && ChainInv(l) && StepLedger(config, l, step).Some?
    ensures ChainInv(StepLedger(config, l, step).value)
  {
    var l' := StepLedger(config, l, step).value;
    if step.Finalize? {
      FinalizeShape(config, l, step);
      ChainFinalized(config, l, l', step.timestamp);
    } else {
      if step.Apply? && Dispatch(config, l.state, step.ext).Stored? {
        StoredExtends(config, l.state, step.ext);
      }
      assert l'.finished == l.finished && l'.state.blockHash == l.state.blockHash;
      assert forall i | 0 <= i < |l.finished| :: BlockInv(l, i) ==> BlockInv(l', i);
    }
  }

  // ---------------------------------------------------------------------------
  // Nonces
  // ---------------------------------------------------------------------------

  /** A user transaction whose nonce is checked, sent by `a`. */
  predicate Counts(tx: Transaction, a: Felt) {
    Version(tx) != 0 && Sender(tx) == a
  }

  function UserCount(rs: seq<Record>, a: Felt): nat {
    if rs == [] then 0
    else UserCount(rs[..|rs| - 1], a) + if Counts(rs[|rs| - 1].tx, a) then 1 else 0
  }

  /** The k-th checked transaction of every sender carries nonce k, counted modulo the prime. */
  ghost predicate NoncesInOrder(rs: seq<Record>) {
    forall i | 0 <= i < |rs| && Version(rs[i].tx) != 0 ::
      rs[i].tx.nonce == UserCount(rs[..i], Sender(rs[i].tx)) % PRIME
  }

  ghost predicate NonceInv(l: Ledger) {
    && (forall a :: NonceOf(l.state, a) == UserCount(AllRecords(l), a) % PRIME)
    && NoncesInOrder(AllRecords(l))
  }

  lemma {:induction false} AcceptNonces(config: Config, s: State, tx: Transaction, classValid: bool)
    requires !config.disableNonceValidation && Accept(config, s, tx, classValid).Accepted?
    ensures var s' := Accept(config, s, tx, classValid).state;
            && (Version(tx) != 0 ==> NonceOf(s, Sender(tx)) == tx.nonce)
            && (forall a :: NonceOf(s', a) == if Counts(tx, a) then (NonceOf(s, a) + 1) % PRIME else NonceOf(s, a))
  {
  }

  lemma {:induction false} ModSucc(n: nat)
    ensures (n % PRIME + 1) % PRIME == (n + 1) % PRIME
  {
    var q := n / PRIME;
    assert n == q * PRIME + n % PRIME;
    if n % PRIME + 1 == PRIME {
      assert n + 1 == (q + 1) * PRIME;
    } else {
      assert n + 1 == q * PRIME + (n % PRIME + 1);
    }
  }

  lemma {:induction false} SmallMod(n: nat)
    requires n < PRIME
    ensures n % PRIME == n
  {
  }

  lemma {:induction false} NonceStored(s: State, s': State, rs: seq<Record>, r: Record)
    requires forall a :: NonceOf(s, a) == UserCount(rs, a) % PRIME
    requires NoncesInOrder(rs)
    requires Version(r.tx) != 0 ==> NonceOf(s, Sender(r.tx)) == r.tx.nonce
    requires forall a :: NonceOf(s', a) == if Counts(r.tx, a) then (NonceOf(s, a) + 1) % PRIME else NonceOf(s, a)
    ensures forall a :: NonceOf(s', a) == UserCount(rs + [r], a) % PRIME
    ensures NoncesInOrder(rs + [r])
  {
    var rs' := rs + [r];
    assert rs'[..|rs|] == rs;
    forall a ensures NonceOf(s', a) == UserCount(rs', a) % PRIME {
      ModSucc(UserCount(rs, a));
    }
    assert forall i | 0 <= i < |rs| :: rs'[..i] == rs[..i] && rs'[i] == rs[i];
  }

  lemma {:induction false} NotStoredFrame(config: Config, s: State, ext: Extrinsic)
    ensures var outcome := Dispatch(config, s, ext);
            outcome.SequencerSet? ==>
              outcome.state == s.(sequencer := outcome.state.sequencer, seqAddrUpdate := Some(true))
  {
  }

  /** The steps that store no transaction leave nonces, consumed messages and L2-to-L1 messages alone. */
  lemma {:induction false} QuietStep(config: Config, l: Ledger, step: Step)
    requires StepLedger(config, l, step).Some?
    requires !(step.Apply? && Dispatch(config, l.state, step.ext).Stored?)
    ensures var l' := StepLedger(config, l, step).value;
            && AllRecords(l') == AllRecords(l) && l'.state.nonces == l.state.nonces
            && l'.state.l1Messages == l.state.l1Messages && l'.state.txMessages == l.state.txMessages
  {
    StepRecords(config, l, step);
    assert AllRecords(l) + [] == AllRecords(l);
    match step {
      case Initialize =>
      case Apply(ext) => NotStoredFrame(config, l.state, ext);
      case Finalize(_) =>
    }
  }

  lemma {:induction false} NonceDispatch(config: Config, s: State, ext: Extrinsic, rs: seq<Record>)
    requires !config.disableNonceValidation && Dispatch(config, s, ext).Stored?
    requires (forall a :: NonceOf(s, a) == UserCount(rs, a) % PRIME) && NoncesInOrder(rs)
    ensures var outcome := Dispatch(config, s, ext);
            && (forall a :: NonceOf(outcome.state, a) == UserCount(rs + [outcome.record], a) % PRIME)
            && NoncesInOrder(rs + [outcome.record])
  {
    StoredExtends(config, s, ext);
    AcceptNonces(config, s, ext.tx, ext.classValid);
    var outcome := Dispatch(config, s, ext);
    assert outcome.state.nonces == Accept(config, s, ext.tx, ext.classValid).state.nonces;
    NonceStored(s, outcome.state, rs, outcome.record);
  }

  lemma {:induction false} NonceStep(config: Config, l: Ledger, step: Step)
    requires !config.disableNonceValidation && NonceInv(l) && StepLedger(config, l, step).Some?
    ensures NonceInv(StepLedger(config, l, step).value)
  {
    if step.Apply? && Dispatch(config, l.state, step.ext).Stored? {
      StepRecords(config, l, step);
      NonceDispatch(config, l.state, step.ext, AllRecords(l));
    } else {
      QuietStep(config, l, step);
    }
  }

  // ---------------------------------------------------------------------------
  // Messages from L1
  // ---------------------------------------------------------------------------

  function L1Nonces(rs: seq<Record>): seq<nat> {
    if rs == [] then []
    else L1Nonces(rs[..|rs| - 1]) + if rs[|rs| - 1].tx.L1Handler? then [rs[|rs| - 1].tx.nonce] else []
  }

  /** The consumed nonces are those of the stored L1 handlers, and no two of these share one. */
  ghost predicate L1Inv(l: Ledger) {
    && (forall n :: n in l.state.l1Messages <==> n in L1Nonces(AllRecords(l)))
    && Distinct(L1Nonces(AllRecords(l)))
  }

  lemma {:induction false} AcceptL1(config: Config, s: State, tx: Transaction, classValid: bool)
    requires Accept(config, s, tx, classValid).Accepted?
    ensures tx.L1Handler? ==> tx.nonce !in s.l1Messages
    ensures Accept(config, s, tx, classValid).state.l1Messages ==
            s.l1Messages + if tx.L1Handler? then {tx.nonce} else {}
  {
  }

  lemma {:induction false} L1Step(config: Config, l: Ledger, step: Step)
    requires L1Inv(l) && StepLedger(config, l, step).Some?
    ensures L1Inv(StepLedger(config, l, step).value)
  {
    if step.Apply? && Dispatch(config, l.state, step.ext).Stored? {
      var l', r := StepLedger(config, l, step).value, Dispatch(config, l.state, step.ext).record;
      StepRecords(config, l, step);
      StoredExtends(config, l.state, step.ext);
      AcceptL1(config, l.state, step.ext.tx, step.ext.classValid);
      var rs := AllRecords(l);
      assert (rs + [r])[..|rs|] == rs;
      assert L1Nonces(AllRecords(l')) == L1Nonces(rs) + if r.tx.L1Handler? then [r.tx.nonce] else [];
    } else {
      QuietStep(config, l, step);
    }
  }

  // ---------------------------------------------------------------------------
  // Messages to L1
  // ---------------------------------------------------------------------------

  function MessagesFor(rs: seq<Record>, h: Felt): seq<Message> {
    if rs == [] then []
    else MessagesFor(rs[..|rs| - 1], h) + if rs[|rs| - 1].hash == h then rs[|rs| - 1].messages else []
  }

  /** The message lists are appended to and never cleared, so at the end of block `i` they hold
      what all transactions of blocks 0 to `i` with that hash sent. */
  ghost predicate MessageInv(l: Ledger) {
    && (forall h :: At(l.state.txMessages, h) == MessagesFor(AllRecords(l), h))
    && (forall i, h | 0 <= i < |l.finished| ::
          At(l.finished[i].storage.txMessages, h) == MessagesFor(RecordsOf(l.finished[..i + 1]), h))
  }

  lemma {:induction false} MessagesStored(s: State, s': State, rs: seq<Record>, r: Record)
    requires forall h :: At(s.txMessages, h) == MessagesFor(rs, h)
    requires s'.txMessages == Append(s.txMessages, r.hash, r.messages)
    ensures forall h :: At(s'.txMessages, h) == MessagesFor(rs + [r], h)
  {
    assert (rs + [r])[..|rs|] == rs;
    forall h ensures At(s'.txMessages, h) == MessagesFor(rs + [r], h) {
      assert At(s.txMessages, h) == MessagesFor(rs, h);
    }
  }

  lemma {:induction false} MessagesFinalized(l: Ledger, l': Ledger)
    requires MessageInv(l) && |l'.finished| == |l.finished| + 1 && l'.finished[..|l.finished|] == l.finished
    requires l'.finished[|l.finished|].records == l.records && l'.records == []
    requires l'.finished[|l.finished|].storage.txMessages == l.state.txMessages == l'.state.txMessages
    ensures MessageInv(l')
  {
    assert AllRecords(l') == RecordsOf(l'.finished) == AllRecords(l);
    forall i, h | 0 <= i < |l'.finished|
      ensures At(l'.finished[i].storage.txMessages, h) == MessagesFor(RecordsOf(l'.finished[..i + 1]), h)
    {
      if i < |l.finished| {
        assert l'.finished[..i + 1] == l.finished[..i + 1];
        assert At(l.finished[i].storage.txMessages, h) == MessagesFor(RecordsOf(l.finished[..i + 1]), h);
      } else {
        assert l'.finished[..i + 1] == l'.finished;
      }
    }
  }

  lemma {:induction false} MessageStep(config: Config, l: Ledger, step: Step)
    requires PendingInv(config, l) && MessageInv(l) && StepLedger(config, l, step).Some?
    ensures MessageInv(StepLedger(config, l, step).value)
  {
    var l' := StepLedger(config, l, step).value;
    if step.Apply? && Dispatch(config, l.state, step.ext).Stored? {
      StepRecords(config, l, step);
      StoredExtends(config, l.state, step.ext);
      MessagesStored(l.state, l'.state, AllRecords(l), Dispatch(config, l.state, step.ext).record);
    } else {
      QuietStep(config, l, step);
      if step.Finalize? {
        FinalizeShape(config, l, step);
        MessagesFinalized(l, l');
      }
    }
  }

  ghost predicate HashInv(config: Config, l: Ledger) {
    forall r | r in AllRecords(l) :: r.hash == ComputeHash(r.tx, config.chainId, false)
  }

  lemma {:induction false} HashStep(config: Config, l: Ledger, step: Step)
    requires HashInv(config, l) && StepLedger(config, l, step).Some?
    ensures HashInv(config, StepLedger(config, l, step).value)
  {
    StepRecords(config, l, step);
    if step.Apply? && Dispatch(config, l.state, step.ext).Stored? {
      StoredExtends(config, l.state, step.ext);
    }
  }

  // ---------------------------------------------------------------------------
  // The sequencer flag between blocks
  // ---------------------------------------------------------------------------

  ghost predicate SequencerInv(l: Ledger) {
    && (l.state.number == 0 ==> !l.open && l.state.seqAddrUpdate == Some(true))
    && (l.state.number > 0 && !l.open ==> l.state.seqAddrUpdate == None)
    && (l.state.number == 1 && l.open ==> l.state.seqAddrUpdate == Some(true))
    && l.state.seqAddrUpdate != Some(false)
  }

  lemma {:induction false} SequencerStep(config: Config, l: Ledger, step: Step)
    requires PendingInv(config, l) && SequencerInv(l) && StepLedger(config, l, step).Some?
    ensures SequencerInv(StepLedger(config, l, step).value)
  {
    if step.Finalize? {
      FinalizeShape(config, l, step);
    } else if step.Apply? && Dispatch(config, l.state, step.ext).Stored? {
      StoredExtends(config, l.state, step.ext);
    }
  }

  // ---------------------------------------------------------------------------
  // All runs
  // ---------------------------------------------------------------------------

  ghost predicate Inv(config: Config, l: Ledger) {
    && PendingInv(config, l) && ChainInv(l) && L1Inv(l) && MessageInv(l) && HashInv(config, l)
    && SequencerInv(l)
  }

  lemma {:induction false} GenesisInv(config: Config, timestamp: nat, contracts: set<Felt>, classes: set<Felt>)
    ensures Inv(config, GenesisLedger(config, timestamp, contracts, classes))
    ensures NonceInv(GenesisLedger(config, timestamp, contracts, classes))
  {
    var l := GenesisLedger(config, timestamp, contracts, classes);
    var f := l.finished[0];
    assert l.finished[..0] == [] && l.finished[..1] == l.finished;
    assert RecordsOf(l.finished) == RecordsOf(l.finished[..0]) + f.records == [];
    assert AllRecords(l) == [];
    assert BlockInv(l, 0);
  }

  /** Every run of the pallet, over any number of blocks, keeps the whole invariant. */
  lemma {:induction false} RunInv(config: Config, l: Ledger, steps: seq<Step>)
    requires Inv(config, l) && Run(config, l, steps).Some?
    ensures Inv(config, Run(config, l, steps).value)
    decreases |steps|
  {
    if steps != [] {
      var init, step := steps[..|steps| - 1], steps[|steps| - 1];
      RunInv(config, l, init);
      var l' := Run(config, l, init).value;
      PendingStep(config, l', step);
      ChainStep(config, l', step);
      L1Step(config, l', step);
      MessageStep(config, l', step);
      HashStep(config, l', step);
      SequencerStep(config, l', step);
    }
  }

  /** With nonce validation on, the stored nonce of every account is the number of its stored
      transactions, and these carry the nonces 0, 1, 2, ... in order. */
  lemma {:induction false} RunNonces(config: Config, l: Ledger, steps: seq<Step>)
    requires !config.disableNonceValidation && NonceInv(l) && Run(config, l, steps).Some?
    ensures NonceInv(Run(config, l, steps).value)
    decreases |steps|
  {
    if steps != [] {
      var init := steps[..|steps| - 1];
      RunNonces(config, l, init);
      NonceStep(config, Run(config, l, init).value, steps[|steps| - 1]);
    }
  }

  /** The ledgers some run from a genesis state leads to. */
  ghost predicate Reachable(config: Config, l: Ledger) {
    exists timestamp: nat, contracts: set<Felt>, classes: set<Felt>, steps: seq<Step> ::
      Run(config, GenesisLedger(config, timestamp, contracts, classes), steps) == Some(l)
  }

  lemma {:induction false} ReachableInv(config: Config, l: Ledger)
    requires Reachable(config, l)
    ensures Inv(config, l)
    ensures !config.disableNonceValidation ==> NonceInv(l)
  {
    var timestamp, contracts, classes, steps :|
      Run(config, GenesisLedger(config, timestamp, contracts, classes), steps) == Some(l);
    GenesisInv(config, timestamp, contracts, classes);
    RunInv(config, GenesisLedger(config, timestamp, contracts, classes), steps);
    if !config.disableNonceValidation {
      RunNonces(config, GenesisLedger(config, timestamp, contracts, classes), steps);
    }
  }
}
