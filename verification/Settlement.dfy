/**
 The settlement worker: an outer loop that retries recoverable errors around an inner loop that
 follows finality notifications and sends one state update per block to the L1 contract.
 */
module Settlement {
  import opened Basics
  import opened Felts
  import opened Transactions
  import opened Blocks
  import opened Pallet

  /** The state the contract holds: root and number of the last settled block. */
  datatype L1State = L1State(root: Felt, number: nat)

  datatype Spec = Spec(configHash: Felt, programHash: Felt)

  datatype MessageToL2 = MessageToL2(from: Felt, to: Felt, nonce: nat, selector: Felt, payload: seq<Felt>)

  datatype Update = Update(
    prevRoot: Felt, newRoot: Felt, number: nat, blockHash: Felt, configHash: Felt,
    messagesToL1: seq<Message>, messagesToL2: seq<MessageToL2>)

  /** A finalised Substrate block: the Starknet block in its digest and the messages to L1 that
      its storage lists per transaction hash. */
  datatype ChainBlock = ChainBlock(block: Block, txMessages: map<Felt, seq<Message>>)

  /** What does not change while the worker runs: the finalised chain, by height, and constants. */
  datatype World = World(final: seq<ChainBlock>, chainId: Felt, stateRoot: Felt, spec: Spec)

  /** Heights inside and outside agree, as the pallet guarantees. */
  ghost predicate Aligned(w: World) {
    forall i | 0 <= i < |w.final| :: w.final[i].block.header.number == i
  }

  datatype Error =
    | Blockchain | StarknetApi | DigestLog | RuntimeApi | EthereumClient
    | UnknownStarknetBlock | UnknownSubstrateBlock
    | StateRootMismatch | ProgramHashMismatch | ConfigHashMismatch | StateNotInitialized
    | ThreadPanic  // an L1 handler without calldata

  predicate CanRetry(e: Error) {
    !(e.StateRootMismatch? || e.ConfigHashMismatch? || e.ProgramHashMismatch? || e.ThreadPanic?)
  }

  /** What the client answers at some moment: it knows the chain up to some height, and a lookup
      may fail for reasons of its own. */
  datatype View = View(known: nat, faults: map<nat, Error>, runtimeOk: bool)

  datatype Notification = Notification(height: nat, logReadable: bool, view: View)

  /** The fate of an update: the contract may have applied it although the worker sees an error. */
  datatype Ack = AppliedOk | AppliedErr | NotApplied

  /** One run of the inner loop, up to its end or its first error. */
  datatype Episode = Episode(
    initializedKnown: bool, specKnown: bool, stateKnown: bool, view: View,
    notifications: seq<Notification>, acks: seq<Ack>)

  ghost predicate ValidEpisode(w: World, ep: Episode) {
    forall i | 0 <= i < |ep.notifications| :: ep.notifications[i].height < |w.final|
          && ep.notifications[i].height < U64_BOUND
  }

  // ---------------------------------------------------------------------------
  // The update of one block
  // ---------------------------------------------------------------------------

  function ToL2(tx: Transaction): MessageToL2
    requires tx.L1Handler? && tx.calldata != []
  {
    MessageToL2(tx.calldata[0], tx.contract, tx.nonce, tx.selector, tx.calldata[1..])
  }

  predicate Convertible(txs: seq<Transaction>) {
    forall i | 0 <= i < |txs| :: txs[i].L1Handler? ==> txs[i].calldata != []
  }

  function MessagesToL2(txs: seq<Transaction>): seq<MessageToL2>
    requires Convertible(txs)
  {
    if txs == [] then []
    else
      var init, tx := txs[..|txs| - 1], txs[|txs| - 1];
      MessagesToL2(init) + if tx.L1Handler? then [ToL2(tx)] else []
  }

  function MessagesToL1(w: World, b: ChainBlock, txs: seq<Transaction>): seq<Message> {
    if txs == [] then []
    else
      MessagesToL1(w, b, txs[..|txs| - 1]) + At(b.txMessages, ComputeHash(txs[|txs| - 1], w.chainId, false))
  }

  function UpdateFor(w: World, prev: L1State, b: ChainBlock): Update
    requires Convertible(b.block.transactions)
  {
    Update(prev.root, w.stateRoot, b.block.header.number, HeaderHash(b.block.header), w.spec.configHash,
           MessagesToL1(w, b, b.block.transactions), MessagesToL2(b.block.transactions))
  }

  // ---------------------------------------------------------------------------
  // What a run may do to the contract
  // ---------------------------------------------------------------------------

  /** The state of the contract after `k` further blocks. */
  function StateAfter(w: World, s: L1State, k: nat): L1State {
    if k == 0 then s else L1State(w.stateRoot, s.number + k)
  }

  predicate HasUpdate(w: World, n: nat) {
    n < |w.final| && Convertible(w.final[n].block.transactions)
  }

  ghost predicate CanSettle(w: World, s: L1State, k: nat) {
    forall i | s.number < i <= s.number + k :: HasUpdate(w, i)
  }

  /** The updates of the `k` blocks after `s`, in order. */
  ghost function Settled(w: World, s: L1State, k: nat): seq<Update>
    requires CanSettle(w, s, k)
  {
    if k == 0 then []
    else
      assert HasUpdate(w, s.number + k);
      Settled(w, s, k - 1) + [UpdateFor(w, StateAfter(w, s, k - 1), w.final[s.number + k])]
  }

  /** The updates carry consecutive numbers, each names the root its predecessor left, and each
      belongs to the finalised block of that height. */
  lemma {:induction false} SettledIsChained(w: World, s: L1State, k: nat, i: nat)
    requires Aligned(w) && CanSettle(w, s, k) && i < k
    ensures |Settled(w, s, k)| == k && HasUpdate(w, s.number + 1 + i)
    ensures var u := Settled(w, s, k);
            && u[i].number == s.number + 1 + i
            && u[i].prevRoot == (if i == 0 then s.root else u[i - 1].newRoot)
            && u[i].blockHash == HeaderHash(w.final[s.number + 1 + i].block.header)
            && u[i].configHash == w.spec.configHash
    decreases k
  {
    if i < k - 1 {
      SettledIsChained(w, s, k - 1, i);
    } else if k > 1 {
      SettledIsChained(w, s, k - 1, k - 2);
    }
  }

  lemma {:induction false} SettledAppends(w: World, s: L1State, j: nat, k: nat)
    requires CanSettle(w, s, j) && CanSettle(w, StateAfter(w, s, j), k)
    ensures CanSettle(w, s, j + k)
    ensures Settled(w, s, j) + Settled(w, StateAfter(w, s, j), k) == Settled(w, s, j + k)
    ensures StateAfter(w, StateAfter(w, s, j), k) == StateAfter(w, s, j + k)
    decreases k
  {
    if k > 0 {
      SettledAppends(w, s, j, k - 1);
    }
  }

  // ---------------------------------------------------------------------------
  // Read-only checks
  // ---------------------------------------------------------------------------

  datatype Lookup = FoundBlock(b: ChainBlock) | NotFound(error: Error)

  function GetStarknetBlock(w: World, view: View, n: nat): Lookup {
    if n in view.faults then NotFound(view.faults[n])
    else if n < |w.final| && n <= view.known then FoundBlock(w.final[n])
    else NotFound(UnknownStarknetBlock)
  }

  function VerifySpec(w: World, spec: Spec): Option<Error> {
    if spec.programHash != w.spec.programHash then Some(ProgramHashMismatch)
    else if spec.configHash != w.spec.configHash then Some(ConfigHashMismatch)
    else None
  }

  /** An unknown height passes: the check runs again once the chain has caught up. */
  function VerifyState(w: World, view: View, s: L1State): Option<Error> {
    if s.number >= U64_BOUND then Some(StarknetApi)
    else
      match GetStarknetBlock(w, view, s.number)
      case FoundBlock(_) => if s.root != w.stateRoot then Some(StateRootMismatch) else None
      case NotFound(error) => if error.UnknownStarknetBlock? then None else Some(error)
  }

  // ---------------------------------------------------------------------------
  // The contract and the worker
  // ---------------------------------------------------------------------------

  class Contract {
    var initialized: bool
    var spec: Spec
    var state: L1State
    ghost var log: seq<Update>  // the updates applied so far

    constructor (initialized: bool, spec: Spec, state: L1State)
      ensures this.initialized == initialized && this.spec == spec && this.state == state && log == []
    {
      this.initialized, this.spec, this.state, log := initialized, spec, state, [];
    }

    method UpdateState(u: Update, ack: Ack) returns (ok: bool)
      modifies this`state, this`log
      ensures ok == ack.AppliedOk?
      ensures ack.NotApplied? ==> state == old(state) && log == old(log)
      ensures !ack.NotApplied? ==> state == L1State(u.newRoot, u.number) && log == old(log) + [u]
    {
      if !ack.NotApplied? {
        state := L1State(u.newRoot, u.number);
        log := log + [u];
      }
      return ack.AppliedOk?;
    }
  }

  /** Since some earlier moment the contract has received exactly the next `k` blocks. */
  ghost predicate AdvancedBy(w: World, was: L1State, logWas: seq<Update>, k: nat, now: L1State, log: seq<Update>) {
    CanSettle(w, was, k) && now == StateAfter(w, was, k) && log == logWas + Settled(w, was, k)
  }

  ghost predicate Advanced(w: World, was: L1State, logWas: seq<Update>, now: L1State, log: seq<Update>) {
    was.number <= now.number && AdvancedBy(w, was, logWas, now.number - was.number, now, log)
  }

  lemma {:induction false} AdvancedOnce(w: World, was: L1State, logWas: seq<Update>, now: L1State, log: seq<Update>)
    requires Advanced(w, was, logWas, now, log)
    requires HasUpdate(w, now.number + 1)
    ensures Advanced(w, was, logWas, L1State(w.stateRoot, now.number + 1),
                     log + [UpdateFor(w, now, w.final[now.number + 1])])
  {
    AdvancedNext(w, was, logWas, now.number - was.number, now, log);
  }

  lemma {:induction false} AdvancedNext(w: World, was: L1State, logWas: seq<Update>, k: nat, now: L1State,
                                        log: seq<Update>)
    requires AdvancedBy(w, was, logWas, k, now, log) && HasUpdate(w, was.number + k + 1)
    ensures AdvancedBy(w, was, logWas, k + 1, L1State(w.stateRoot, was.number + k + 1),
                       log + [UpdateFor(w, now, w.final[was.number + k + 1])])
  {
    var u := UpdateFor(w, now, w.final[was.number + k + 1]);
    assert Settled(w, was, k + 1) == Settled(w, was, k) + [u];
    ConcatAssoc(logWas, Settled(w, was, k), [u]);
  }

  datatype Result<T> = Ok(value: T) | Err(error: Error)

  /** Collects the messages of a block, builds its update and sends it. */
  method UpdateStarknetState(contract: Contract, w: World, prev: L1State, next: ChainBlock, configHash: Felt,
                             runtimeOk: bool, ack: Ack)
      returns (r: Result<L1State>)
    modifies contract`state, contract`log
    ensures contract.log != old(contract.log) ==>
              && runtimeOk && Convertible(next.block.transactions)
              && contract.log == old(contract.log) + [UpdateFor(w, prev, next).(configHash := configHash)]
              && contract.state == L1State(w.stateRoot, next.block.header.number)
    ensures contract.log == old(contract.log) ==> contract.state == old(contract.state)
    ensures r.Ok? ==> contract.log != old(contract.log) && r.value == contract.state
    ensures runtimeOk && Convertible(next.block.transactions) && ack.AppliedOk? ==> r.Ok?
  {
    var nextState := L1State(w.stateRoot, next.block.header.number);
    var messagesToL1: seq<Message> := [];
    var messagesToL2: seq<MessageToL2> := [];
    if !runtimeOk {
      return Err(RuntimeApi);
    }
    var txs := next.block.transactions;
    for i := 0 to |txs|
      invariant Convertible(txs[..i])
      invariant messagesToL2 == MessagesToL2(txs[..i]) && messagesToL1 == MessagesToL1(w, next, txs[..i])
    {
      assert txs[..i + 1][..i] == txs[..i];
      if txs[i].L1Handler? {
        if txs[i].calldata == [] {
          return Err(ThreadPanic);
        }
        messagesToL2 := messagesToL2 + [ToL2(txs[i])];
      }
      messagesToL1 := messagesToL1 + At(next.txMessages, ComputeHash(txs[i], w.chainId, false));
    }
    assert txs[..|txs|] == txs;
    var update := Update(prev.root, nextState.root, nextState.number, HeaderHash(next.block.header), configHash,
                         messagesToL1, messagesToL2);
    assert update == UpdateFor(w, prev, next).(configHash := configHash);
    var ok := contract.UpdateState(update, ack);
    r := if ok then Ok(nextState) else Err(EthereumClient);
  }

  /** No lookup, runtime call or acknowledgement goes wrong for this notification. */
  ghost predicate SmoothNotification(w: World, n: Notification) {
    n.logReadable && n.view.runtimeOk && n.view.faults == map[] && n.view.known >= n.height
  }

  /** Nothing goes wrong in the episode, and chain and contract agree. */
  ghost predicate Smooth(w: World, ep: Episode, initialized: bool, spec: Spec, s: L1State) {
    && ep.initializedKnown && ep.specKnown && ep.stateKnown && initialized && spec == w.spec
    && s.root == w.stateRoot && s.number < U64_BOUND && ep.view.faults == map[]
    && (forall i | 0 <= i < |ep.notifications| :: SmoothNotification(w, ep.notifications[i]))
    && (forall i | 0 <= i < |w.final| :: HasUpdate(w, i))
    && |ep.acks| >= |w.final| && (forall i | 0 <= i < |ep.acks| :: ep.acks[i].AppliedOk?)
  }

  /** Looks up the block after the last settled one and sends its update. */
  method SettleNext(contract: Contract, w: World, settled: L1State, notification: Notification, configHash: Felt,
                    ack: Ack)
      returns (r: Result<L1State>)
    requires Aligned(w) && settled.number < notification.height < |w.final| && configHash == w.spec.configHash
    requires settled == contract.state
    modifies contract`state, contract`log
    ensures contract.log == old(contract.log) ==> contract.state == settled
    ensures contract.log != old(contract.log) ==>
              && HasUpdate(w, settled.number + 1) && contract.state == L1State(w.stateRoot, settled.number + 1)
              && contract.log == old(contract.log) + [UpdateFor(w, settled, w.final[settled.number + 1])]
    ensures r.Ok? ==> contract.log != old(contract.log) && r.value == contract.state
    ensures SmoothNotification(w, notification) && HasUpdate(w, settled.number + 1) && ack.AppliedOk? ==> r.Ok?
  {
    var next := w.final[notification.height];
    if settled.number + 1 != next.block.header.number {
      var found := GetStarknetBlock(w, notification.view, settled.number + 1);
      if found.NotFound? { return Err(found.error); }
      next := found.b;
    }
    r := UpdateStarknetState(contract, w, settled, next, configHash, notification.view.runtimeOk, ack);
  }

  /** The blocks from the last settled one up to the notified one, one update each. */
  method SettleUpTo(contract: Contract, w: World, settled: L1State, notification: Notification, configHash: Felt,
                    acks: seq<Ack>, sent: nat)
      returns (r: Result<L1State>, sent': nat)
    requires Aligned(w) && notification.height < |w.final| && configHash == w.spec.configHash
    requires settled == contract.state
    modifies contract`state, contract`log
    ensures Advanced(w, old(contract.state), old(contract.log), contract.state, contract.log)
    ensures settled.number < contract.state.number ==> contract.state.number <= notification.height
    ensures r.Ok? ==>
              && r.value == contract.state && notification.height <= contract.state.number
              && sent' - sent == contract.state.number - settled.number
              && (contract.state.root == settled.root || contract.state.root == w.stateRoot)
    ensures && SmoothNotification(w, notification) && (forall i | 0 <= i < |w.final| :: HasUpdate(w, i))
            && (forall i | 0 <= i < |acks| :: acks[i].AppliedOk?) && sent + |w.final| <= |acks| + settled.number + 1
            ==> r.Ok?
  {
    var syncTo, syncFrom := w.final[notification.height].block.header.number, settled.number;
    var lastSettled := settled;
    sent' := sent;
    assert Settled(w, contract.state, 0) == [];
    while syncFrom < syncTo
      invariant lastSettled == contract.state && syncFrom == lastSettled.number
      invariant syncFrom == settled.number || syncFrom <= syncTo
      invariant Advanced(w, old(contract.state), old(contract.log), contract.state, contract.log)
      invariant sent' - sent == syncFrom - settled.number >= 0
    {
      var ack := if sent' < |acks| then acks[sent'] else NotApplied;
      sent' := sent' + 1;
      ghost var log := contract.log;
      var updated := SettleNext(contract, w, lastSettled, notification, configHash, ack);
      if contract.log != log {
        AdvancedOnce(w, old(contract.state), old(contract.log), lastSettled, log);
      }
      if updated.Err? { return Err(updated.error), sent'; }
      lastSettled := updated.value;
      syncFrom := syncFrom + 1;
    }
    return Ok(lastSettled), sent';
  }

  /** The block the contract settled last is unknown to the client, or has the root the contract
      holds. */
  ghost predicate RootChecked(w: World, view: View, s: L1State) {
    && s.number < U64_BOUND
    && (s.number < |w.final| && s.number <= view.known && s.number !in view.faults ==> s.root == w.stateRoot)
  }

  /** The inner loop.  It returns at the end of the notifications or with the first error.  In
      either case the contract has received the next blocks in order, with none skipped, repeated
      or reordered, no block beyond a notified one, and nothing at all unless it is initialised
      for the same chain and its root passed the check.  If nothing goes wrong every notified
      block is settled. */
  method SyncStateLoop(contract: Contract, w: World, ep: Episode) returns (r: Result<()>)
    requires Aligned(w) && ValidEpisode(w, ep)
    modifies contract`state, contract`log
    ensures Advanced(w, old(contract.state), old(contract.log), contract.state, contract.log)
    ensures contract.log != old(contract.log) ==>
              contract.initialized && contract.spec == w.spec && RootChecked(w, ep.view, old(contract.state))
    ensures old(contract.state.number) < contract.state.number ==>
              exists i | 0 <= i < |ep.notifications| :: contract.state.number <= ep.notifications[i].height
    ensures r.Ok? ==> forall i | 0 <= i < |ep.notifications| :: ep.notifications[i].height <= contract.state.number
    ensures Smooth(w, ep, contract.initialized, contract.spec, old(contract.state)) ==> r.Ok?
  {
    assert Settled(w, contract.state, 0) == [];
    if !ep.initializedKnown { return Err(EthereumClient); }
    if !contract.initialized { return Err(StateNotInitialized); }
    if !ep.specKnown { return Err(EthereumClient); }
    var spec := contract.spec;
    var mismatch := VerifySpec(w, spec);
    if mismatch.Some? { return Err(mismatch.value); }
    if !ep.stateKnown { return Err(EthereumClient); }
    var lastSettled := contract.state;
    mismatch := VerifyState(w, ep.view, lastSettled);
    if mismatch.Some? { return Err(mismatch.value); }
    var sent := 0;
    for n := 0 to |ep.notifications|
      invariant lastSettled == contract.state
      invariant Advanced(w, old(contract.state), old(contract.log), contract.state, contract.log)
      invariant old(contract.state.number) < contract.state.number ==>
                  exists i | 0 <= i < n :: contract.state.number <= ep.notifications[i].height
      invariant forall i | 0 <= i < n :: ep.notifications[i].height <= lastSettled.number
      invariant sent == contract.state.number - old(contract.state.number)
      invariant old(contract.state.root) == w.stateRoot ==> contract.state.root == w.stateRoot
    {
      var notification := ep.notifications[n];
      if !notification.logReadable { return Err(DigestLog); }
      var syncFrom, syncTo := lastSettled.number, w.final[notification.height].block.header.number;
      if syncFrom > syncTo { continue; }
      if syncFrom == syncTo {
        mismatch := VerifyState(w, notification.view, lastSettled);
        if mismatch.Some? { return Err(mismatch.value); }
        continue;
      }
      ghost var state, log := contract.state, contract.log;
      var updated;
      updated, sent := SettleUpTo(contract, w, lastSettled, notification, spec.configHash, ep.acks, sent);
      AdvancedTwice(w, old(contract.state), old(contract.log), state, log, contract.state, contract.log);
      if updated.Err? { return Err(updated.error); }
      lastSettled := updated.value;
    }
    return Ok(());
  }

  /** How the outer loop ends: with the notifications in some episode, with an error that retrying
      cannot cure, or not yet, with all episodes so far behind it. */
  datatype Ending = Ended(episode: nat) | GivenUp(episode: nat, error: Error) | Retrying

  /** The number of episodes that were started. */
  function Started(ending: Ending, episodes: nat): nat {
    match ending
    case Ended(e) => e + 1
    case GivenUp(e, _) => e + 1
    case Retrying => episodes
  }

  /** The outer loop: each episode is a restart of the inner one, from the state the contract has then
      (`starts`).  Over all episodes the contract receives the next blocks in order.  An episode that
      ends well ends the loop with every block it was notified of settled, and an episode in which
      nothing goes wrong ends well. */
  method SyncState(contract: Contract, w: World, episodes: seq<Episode>)
      returns (ending: Ending, ghost starts: seq<L1State>)
    requires Aligned(w) && forall i | 0 <= i < |episodes| :: ValidEpisode(w, episodes[i])
    modifies contract`state, contract`log
    ensures Advanced(w, old(contract.state), old(contract.log), contract.state, contract.log)
    ensures contract.log != old(contract.log) ==> contract.initialized && contract.spec == w.spec
    ensures |starts| == Started(ending, |episodes|) <= |episodes|
    ensures Track(w, old(contract.state), starts, contract.state)
    ensures forall e | 0 <= e < |starts| ::
              Smooth(w, episodes[e], contract.initialized, contract.spec, starts[e]) ==> ending == Ended(e)
    ensures ending.Ended? ==> AllSettled(episodes[ending.episode], contract.state)
    ensures ending.GivenUp? ==>
              || ending.error.StateRootMismatch? || ending.error.ConfigHashMismatch?
              || ending.error.ProgramHashMismatch? || ending.error.ThreadPanic?
  {
    assert Settled(w, contract.state, 0) == [];
    starts := [];
    for e := 0 to |episodes|
      invariant Advanced(w, old(contract.state), old(contract.log), contract.state, contract.log)
      invariant contract.log != old(contract.log) ==> contract.initialized && contract.spec == w.spec
      invariant |starts| == e && (e == 0 ==> contract.state == old(contract.state))
      invariant Track(w, old(contract.state), starts, contract.state)
      invariant forall k | 0 <= k < |starts| :: !Smooth(w, episodes[k], contract.initialized, contract.spec, starts[k])
    {
      ghost var state, log := contract.state, contract.log;
      var r := SyncStateLoop(contract, w, episodes[e]);
      AdvancedTwice(w, old(contract.state), old(contract.log), state, log, contract.state, contract.log);
      TrackNext(w, old(contract.state), starts, state, contract.state);
      starts := starts + [state];
      if r.Ok? { return Ended(e), starts; }
      if !CanRetry(r.error) { return GivenUp(e, r.error), starts; }
    }
    return Retrying, starts;
  }

  /** A state the contract passed through. */
  ghost predicate Between(w: World, first: L1State, s: L1State, last: L1State) {
    first.number <= s.number <= last.number && s == StateAfter(w, first, s.number - first.number)
  }

  /** The states the contract had at some moments, from the first one on, in order. */
  ghost predicate Track(w: World, first: L1State, starts: seq<L1State>, last: L1State) {
    && (starts != [] ==> starts[0] == first)
    && (forall e | 0 <= e < |starts| :: Between(w, first, starts[e], last))
    && (forall e | 0 <= e < |starts| - 1 :: starts[e].number <= starts[e + 1].number)
  }

  lemma {:induction false} TrackNext(w: World, first: L1State, starts: seq<L1State>, s: L1State, last: L1State)
    requires Track(w, first, starts, s) && Between(w, first, s, last) && (starts == [] ==> s == first)
    ensures Track(w, first, starts + [s], last)
  {
    if starts != [] {
      assert Between(w, first, starts[|starts| - 1], s);
    }
  }

  /** Every block the episode was notified of is settled. */
  ghost predicate AllSettled(ep: Episode, s: L1State) {
    forall i | 0 <= i < |ep.notifications| :: ep.notifications[i].height <= s.number
  }

  lemma {:induction false} AdvancedTwice(w: World, s0: L1State, log0: seq<Update>, s1: L1State, log1: seq<Update>,
                                         s2: L1State, log2: seq<Update>)
    requires Advanced(w, s0, log0, s1, log1) && Advanced(w, s1, log1, s2, log2)
    ensures Advanced(w, s0, log0, s2, log2)
  {
    AdvancedSum(w, s0, log0, s1.number - s0.number, s1, log1, s2.number - s1.number, s2, log2);
  }

  lemma {:induction false} AdvancedSum(w: World, s0: L1State, log0: seq<Update>, j: nat, s1: L1State, log1: seq<Update>,
                                       k: nat, s2: L1State, log2: seq<Update>)
    requires AdvancedBy(w, s0, log0, j, s1, log1) && AdvancedBy(w, s1, log1, k, s2, log2)
    ensures AdvancedBy(w, s0, log0, j + k, s2, log2)
  {
    SettledAppends(w, s0, j, k);
    ConcatAssoc(log0, Settled(w, s0, j), Settled(w, s1, k));
  }
}
