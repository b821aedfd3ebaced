/**
 The Starknet pallet as a state machine over its storage.

 Contract execution is a parameter: a submitted transaction carries what the execution engine
 answers, either a rejection or the call trees that ran.  A dispatch that returns an error leaves
 the storage as it was, which is how FRAME runs dispatchables.
 */
module Pallet {
  import opened Felts
  import opened Transactions
  import opened Blocks
  import opened CallMerge

  datatype EventContent = EventContent(keys: seq<Felt>, data: seq<Felt>)
  datatype Event = Event(from: Felt, content: EventContent)
  datatype MessageContent = MessageContent(to: nat, payload: seq<Felt>)
  datatype Message = Message(from: Felt, content: MessageContent)

  datatype CallInfo = CallInfo(
    storageAddress: Felt,
    events: seq<Ordered<EventContent>>,
    messages: seq<Ordered<MessageContent>>,
    innerCalls: seq<CallInfo>)

  function EventView(c: CallInfo): Call<Felt, EventContent> {
    Call(c.storageAddress, c.events,
         seq(|c.innerCalls|, i requires 0 <= i < |c.innerCalls| => EventView(c.innerCalls[i])))
  }

  function MessageView(c: CallInfo): Call<Felt, MessageContent> {
    Call(c.storageAddress, c.messages,
         seq(|c.innerCalls|, i requires 0 <= i < |c.innerCalls| => MessageView(c.innerCalls[i])))
  }

  function ToEvents(out: seq<Emitted<Felt, EventContent>>): seq<Event> {
    seq(|out|, i requires 0 <= i < |out| => Event(out[i].from, out[i].content))
  }

  function ToMessages(out: seq<Emitted<Felt, MessageContent>>): seq<Message> {
    seq(|out|, i requires 0 <= i < |out| => Message(out[i].from, out[i].content))
  }

  function CallEvents(c: Option<CallInfo>): seq<Event> {
    if c.None? then [] else ToEvents(Merge(EventView(c.value), 0).0)
  }

  function CallMessages(c: Option<CallInfo>): seq<Message> {
    if c.None? then [] else ToMessages(Merge(MessageView(c.value), 0).0)
  }

  /** What the execution engine answers for a transaction whose nonce was accepted. */
  datatype Execution =
    | Rejected
    | Completed(executeCall: Option<CallInfo>, feeCall: Option<CallInfo>, revertError: Option<string>,
                deployed: set<Felt>, declared: set<Felt>)

  // ---------------------------------------------------------------------------
  // Storage
  // ---------------------------------------------------------------------------

  datatype Config = Config(chainId: Felt, protocolVersion: nat, l1GasPrice: nat, disableNonceValidation: bool)

  datatype State = State(
    number: nat,                          // the Substrate block number
    pending: seq<Transaction>,
    pendingHashes: seq<Felt>,
    txEvents: map<Felt, seq<Event>>,
    txMessages: map<Felt, seq<Message>>,
    txRevertError: map<Felt, string>,
    nonces: map<Felt, nat>,
    l1Messages: set<nat>,
    blockHash: map<nat, Felt>,
    sequencer: Felt,
    seqAddrUpdate: Option<bool>,
    contracts: set<Felt>,                 // addresses with a class hash
    classes: set<Felt>)                   // declared class hashes

  /** Reading a list-valued storage map: an absent key reads as the empty list. */
  function At<V>(m: map<Felt, seq<V>>, h: Felt): seq<V> {
    if h in m then m[h] else []
  }

  function Append<V>(m: map<Felt, seq<V>>, h: Felt, vs: seq<V>): map<Felt, seq<V>> {
    if vs == [] then m else m[h := At(m, h) + vs]
  }

  function NonceOf(s: State, a: Felt): nat {
    if a in s.nonces then s.nonces[a] else 0
  }

  /** A transaction that was stored, with everything it emitted. */
  datatype Record = Record(
    tx: Transaction, hash: Felt, events: seq<Event>, messages: seq<Message>, revertError: Option<string>)

  // ---------------------------------------------------------------------------
  // Dispatch
  // ---------------------------------------------------------------------------

  datatype Extrinsic =
    | SetSequencerAddress(signed: bool, addr: Option<Felt>)  // None: the bytes are not a contract address
    | Submit(signed: bool, tx: Transaction, classValid: bool, execution: Execution)

  datatype Error =
    | BadOrigin | SequencerAddressNotValid | AccountNotDeployed | AccountAlreadyDeployed | ClassHashAlreadyDeclared
    | InvalidContractClassForThisDeclareVersion | L1MessageAlreadyExecuted | TransactionExecutionFailed

  datatype Outcome =
    | Stored(state: State, record: Record)
    | SequencerSet(state: State)
    | Refused(error: Error)
    | Panicked

  function SetSequencer(s: State, signed: bool, addr: Option<Felt>): Outcome {
    if signed then Refused(BadOrigin)
    else if s.number > 1 && s.seqAddrUpdate.Some? then Panicked
    else if addr.None? then Refused(SequencerAddressNotValid)
    else SequencerSet(s.(sequencer := addr.value, seqAddrUpdate := Some(true)))
  }

  predicate IsInvoke(tx: Transaction) { tx.InvokeV0? || tx.InvokeV1? }

  predicate IsDeclare(tx: Transaction) { tx.DeclareV0? || tx.DeclareV1? || tx.DeclareV2? }

  /** The checks made before execution. */
  function Precheck(s: State, tx: Transaction, classValid: bool): Option<Error> {
    if IsInvoke(tx) then
      if Sender(tx) in s.contracts then None else Some(AccountNotDeployed)
    else if IsDeclare(tx) then
      if !classValid then Some(InvalidContractClassForThisDeclareVersion)
      else if tx.classHash in s.classes then Some(ClassHashAlreadyDeclared)
      else if Sender(tx) in s.contracts then None else Some(AccountNotDeployed)
    else if tx.DeployAccount? then
      if Sender(tx) in s.contracts then Some(AccountAlreadyDeployed) else None
    else
      if tx.nonce in s.l1Messages then Some(L1MessageAlreadyExecuted) else None
  }

  /** Checks and advances the nonce of the sender; version 0 transactions skip it. */
  function HandleNonce(config: Config, s: State, tx: Transaction): Option<State> {
    if config.disableNonceValidation || Version(tx) == 0 then Some(s)
    else if NonceOf(s, Sender(tx)) != tx.nonce then None
    else Some(s.(nonces := s.nonces[Sender(tx) := (tx.nonce + 1) % PRIME]))
  }

  function RecordOf(config: Config, tx: Transaction, execution: Execution): Record
    requires execution.Completed?
  {
    Record(tx, ComputeHash(tx, config.chainId, false),
           CallEvents(execution.executeCall) + CallEvents(execution.feeCall),
           CallMessages(execution.executeCall) + CallMessages(execution.feeCall),
           execution.revertError)
  }

  function StoreTransaction(s: State, r: Record, execution: Execution): State
    requires execution.Completed?
  {
    s.(pending := s.pending + [r.tx],
       pendingHashes := s.pendingHashes + [r.hash],
       txEvents := Append(s.txEvents, r.hash, r.events),
       txMessages := Append(s.txMessages, r.hash, r.messages),
       txRevertError := if r.revertError.Some? then s.txRevertError[r.hash := r.revertError.value]
                        else s.txRevertError - {r.hash},
       contracts := s.contracts + execution.deployed,
       classes := s.classes + execution.declared)
  }

  datatype Acceptance = Accepted(state: State) | NotAccepted(error: Error)

  /** Everything that happens before the execution engine runs. */
  function Accept(config: Config, s: State, tx: Transaction, classValid: bool): Acceptance {
    if Precheck(s, tx, classValid).Some? then NotAccepted(Precheck(s, tx, classValid).value)
    else
      var consumed := if tx.L1Handler? then s.(l1Messages := s.l1Messages + {tx.nonce}) else s;
      var advanced := HandleNonce(config, consumed, tx);
      if advanced.None? then NotAccepted(TransactionExecutionFailed) else Accepted(advanced.value)
  }

  function SubmitTransaction(config: Config, s: State, signed: bool, tx: Transaction, classValid: bool,
                             execution: Execution)
    : Outcome
  {
    if signed then Refused(BadOrigin)
    else
      match Accept(config, s, tx, classValid)
      case NotAccepted(error) => Refused(error)
      case Accepted(accepted) =>
        if execution.Rejected? then Refused(TransactionExecutionFailed)
        else
          var r := RecordOf(config, tx, execution);
          Stored(StoreTransaction(accepted, r, execution), r)
  }

  function Dispatch(config: Config, s: State, ext: Extrinsic): Outcome {
    match ext
    case SetSequencerAddress(signed, addr) => SetSequencer(s, signed, addr)
    case Submit(signed, tx, classValid, execution) => SubmitTransaction(config, s, signed, tx, classValid, execution)
  }

  // ---------------------------------------------------------------------------
  // Finalisation
  // ---------------------------------------------------------------------------

  /** The events of the listed transactions; each list is removed when it is read. */
  function TakeEvents(txEvents: map<Felt, seq<Event>>, hashes: seq<Felt>): (seq<Event>, map<Felt, seq<Event>>)
    decreases |hashes|
  {
    if hashes == [] then ([], txEvents)
    else
      var (rest, left) := TakeEvents(txEvents - {hashes[0]}, hashes[1..]);
      (At(txEvents, hashes[0]) + rest, left)
  }

  function ParentBlockHash(s: State, number: nat): Felt {
    if number == 0 || number - 1 !in s.blockHash then ZERO else s.blockHash[number - 1]
  }

  /** The new storage and the block put in the digest. */
  function StoreBlock(config: Config, s: State, number: nat, timestamp: nat): (State, Block) {
    var (events, left) := TakeEvents(s.txEvents, s.pendingHashes);
    var header := Header(ParentBlockHash(s, number), number, s.sequencer, timestamp, |s.pending|, |events|,
                         config.protocolVersion, config.l1GasPrice, None);
    (s.(blockHash := s.blockHash[number := HeaderHash(header)], pending := [], pendingHashes := [], txEvents := left),
     Block(header, s.pending))
  }

  /** None when one of the two assertions of the hook fails. */
  function OnFinalize(config: Config, s: State, timestamp: nat): Option<(State, Block)> {
    if s.seqAddrUpdate != Some(true) || |s.pending| != |s.pendingHashes| then None
    else Some(StoreBlock(config, s.(seqAddrUpdate := None), s.number, timestamp))
  }

  function Genesis(config: Config, timestamp: nat, contracts: set<Felt>, classes: set<Felt>): (State, Block) {
    var empty := State(0, [], [], map[], map[], map[], map[], {}, map[], ZERO, None, {}, {});
    var (s, block) := StoreBlock(config, empty, 0, timestamp);
    (s.(contracts := contracts, classes := classes, seqAddrUpdate := Some(true)), block)
  }

  // ---------------------------------------------------------------------------
  // Runs
  // ---------------------------------------------------------------------------

  /** A finished block, the transactions stored in it and the storage at its end. */
  datatype Finished = Finished(block: Block, records: seq<Record>, storage: State)

  datatype Ledger = Ledger(state: State, open: bool, records: seq<Record>, finished: seq<Finished>)

  datatype Step = Initialize | Apply(ext: Extrinsic) | Finalize(timestamp: nat)

  /** None when the runtime panics, when the call that sets the sequencer fails (it is mandatory, so the
      block is discarded with it), or when the step does not fit the phase of the block. */
  function StepLedger(config: Config, l: Ledger, step: Step): Option<Ledger> {
    match step
    case Initialize =>
      if l.open then None else Some(l.(open := true, state := l.state.(number := l.state.number + 1)))
    case Apply(ext) =>
      if !l.open then None
      else
        (match Dispatch(config, l.state, ext)
         case Stored(s, r) => Some(l.(state := s, records := l.records + [r]))
         case SequencerSet(s) => Some(l.(state := s))
         case Refused(_) => if ext.SetSequencerAddress? then None else Some(l)
         case Panicked => None)
    case Finalize(timestamp) =>
      if !l.open then None
      else
        match OnFinalize(config, l.state, timestamp)
        case None => None
        case Some((s, block)) => Some(Ledger(s, false, [], l.finished + [Finished(block, l.records, s)]))
  }

  function GenesisLedger(config: Config, timestamp: nat, contracts: set<Felt>, classes: set<Felt>): Ledger {
    var (s, block) := Genesis(config, timestamp, contracts, classes);
    Ledger(s, false, [], [Finished(block, [], s)])
  }

  function Run(config: Config, l: Ledger, steps: seq<Step>): Option<Ledger> {
    if steps == [] then Some(l)
    else
      match Run(config, l, steps[..|steps| - 1])
      case None => None
      case Some(l') => StepLedger(config, l', steps[|steps| - 1])
  }
}
