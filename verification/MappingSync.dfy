/**
 The mapping sync: a resumable walk over the forked tree of Substrate blocks that fills the
 index from Starknet hashes to the Substrate blocks wrapping them.

 The stack of tips still to visit is persisted between calls.  Each call pops tips until it
 finds one to index, indexes it, pushes its parent and stores the stack again.
 */
module MappingSync {
  import opened Felts
  import opened Blocks

  /** The hash of a Substrate block. */
  type Hash = nat

  datatype SubstrateHeader = SubstrateHeader(number: nat, parent: Hash, logs: seq<DigestItem>)

  type Chain = map<Hash, SubstrateHeader>

  ghost predicate WellFormed(chain: Chain) {
    forall h | h in chain && chain[h].number > 0 ::
      chain[h].parent in chain && chain[chain[h].parent].number + 1 == chain[h].number
  }

  ghost predicate Grows(chain: Chain, chain': Chain) {
    forall h | h in chain :: h in chain' && chain'[h] == chain[h]
  }

  ghost predicate IsLeaf(chain: Chain, h: Hash) {
    h in chain && forall c | c in chain :: !(chain[c].number > 0 && chain[c].parent == h)
  }

  /** The columns of the Madara database that the sync writes. */
  datatype Db = Db(
    synced: set<Hash>,
    blockMapping: map<Felt, seq<Hash>>,
    txMapping: map<Felt, Hash>,
    txCache: map<Felt, seq<Felt>>,
    tips: seq<Hash>)

  datatype Commitment = Commitment(starknetHash: Felt, txHashes: seq<Felt>)

  /** A Substrate block as the sync records it, with the Starknet block it wraps, if any. */
  datatype Entry = Entry(block: Hash, wraps: Option<Commitment>)

  /** What one call meets outside the database: the tree, the answers of the client, and
      whether its two database commits go through. */
  datatype Env = Env(
    chain: Chain,
    leaves: Option<seq<Hash>>,     // None when the backend fails
    unreadable: set<Hash>,         // headers the backend fails to return
    storageReadable: bool,         // whether the second read of the operating header succeeds
    chainId: Option<Felt>,         // None when the runtime call fails
    mappingCommits: bool,
    tipsCommit: bool)

  ghost predicate ValidEnv(env: Env) {
    && WellFormed(env.chain)
    && (env.leaves.Some? ==> forall h :: h in env.leaves.value <==> IsLeaf(env.chain, h))
  }

  ghost predicate FaultFree(env: Env) {
    && ValidEnv(env)
    && env.leaves.Some? && env.unreadable == {} && env.storageReadable && env.chainId.Some?
    && env.mappingCommits && env.tipsCommit
    && forall h | h in env.chain :: !FindStarknetBlock(env.chain[h].logs).MultipleLogs?
  }

  datatype Error = LeavesUnavailable | HeaderNotFound | ManyLogs | HashMismatch | RuntimeApi | DbCommit

  datatype Outcome = Synced | Idle | Failed(error: Error)

  // ---------------------------------------------------------------------------
  // One call, as a function
  // ---------------------------------------------------------------------------

  datatype Fetched = Fetched(header: SubstrateHeader) | Skip | Missing

  function FetchHeader(synced: set<Hash>, env: Env, tip: Hash, syncFrom: nat): Fetched {
    if tip in synced then Skip
    else if tip in env.chain && tip !in env.unreadable then
      if env.chain[tip].number >= syncFrom then Fetched(env.chain[tip]) else Skip
    else Missing
  }

  datatype Search = Operate(tip: Hash, header: SubstrateHeader, rest: seq<Hash>) | Exhausted | Lost

  /** Pops tips from the end of the stack until one has to be indexed. */
  function SearchTips(synced: set<Hash>, env: Env, tips: seq<Hash>, syncFrom: nat): Search {
    if tips == [] then Exhausted
    else
      var rest, tip := tips[..|tips| - 1], tips[|tips| - 1];
      match FetchHeader(synced, env, tip, syncFrom)
      case Fetched(header) => Operate(tip, header, rest)
      case Skip => SearchTips(synced, env, rest, syncFrom)
      case Missing => Lost
  }

  datatype Indexing = Index(entry: Entry) | Refuse(error: Error)

  function StorageBlock(env: Env, block: Hash): Option<Block> {
    if env.storageReadable && block in env.chain then
      match FindStarknetBlock(env.chain[block].logs)
      case Found(b) => Some(b)
      case _ => None
    else None
  }

  function IndexGenesis(block: Hash, header: SubstrateHeader): Indexing {
    match FindStarknetBlock(header.logs)
    case Found(b) => Index(Entry(block, Some(Commitment(HeaderHash(b.header), []))))
    case NotLog => Index(Entry(block, None))
    case MultipleLogs => Refuse(ManyLogs)
  }

  function IndexBlock(env: Env, block: Hash, header: SubstrateHeader): Indexing {
    match FindStarknetBlock(header.logs)
    case Found(digest) =>
      (match StorageBlock(env, block)
       case Some(stored) =>
         if HeaderHash(digest.header) != HeaderHash(stored.header) then Refuse(HashMismatch)
         else if env.chainId.None? then Refuse(RuntimeApi)
         else
           var hashes := TransactionHashes(digest, env.chainId.value);
           Index(Entry(block, Some(Commitment(HeaderHash(digest.header), hashes))))
       case None => Index(Entry(block, None)))
    case NotLog => Index(Entry(block, None))
    case MultipleLogs => Refuse(ManyLogs)
  }

  function IndexEntry(env: Env, block: Hash, header: SubstrateHeader): Indexing {
    if header.number == 0 then IndexGenesis(block, header) else IndexBlock(env, block, header)
  }

  function Lookup(mapping: map<Felt, seq<Hash>>, h: Felt): seq<Hash> {
    if h in mapping then mapping[h] else []
  }

  function Record(db: Db, e: Entry, cacheMore: bool): Db {
    var db := db.(synced := db.synced + {e.block});
    match e.wraps
    case None => db
    case Some(c) =>
      db.(blockMapping := db.blockMapping[c.starknetHash := Lookup(db.blockMapping, c.starknetHash) + [e.block]],
          txMapping := db.txMapping + map t | t in c.txHashes :: e.block,
          txCache := if cacheMore then db.txCache[c.starknetHash := c.txHashes] else db.txCache)
  }

  /** The stack a call works on: the persisted one, or all leaves when that is empty. */
  function StartingTips(db: Db, env: Env): seq<Hash> {
    if db.tips != [] then db.tips else if env.leaves.Some? then env.leaves.value else []
  }

  function ParentTip(header: SubstrateHeader): seq<Hash> {
    if header.number == 0 then [] else [header.parent]
  }

  function SyncOne(db: Db, env: Env, syncFrom: nat, cacheMore: bool): (Db, Outcome) {
    if db.tips == [] && env.leaves.None? then (db, Failed(LeavesUnavailable))
    else if StartingTips(db, env) == [] then (db, Idle)
    else
      match SearchTips(db.synced, env, StartingTips(db, env), syncFrom)
      case Lost => (db, Failed(HeaderNotFound))
      case Exhausted => if env.tipsCommit then (db.(tips := []), Idle) else (db, Failed(DbCommit))
      case Operate(tip, header, rest) =>
        match IndexEntry(env, tip, header)
        case Refuse(error) => (db, Failed(error))
        case Index(entry) =>
          if !env.mappingCommits then (db, Failed(DbCommit))
          else
            var db' := Record(db, entry, cacheMore);
            if env.tipsCommit then (db'.(tips := rest + ParentTip(header)), Synced)
            else (db', Failed(DbCommit))
  }

  // ---------------------------------------------------------------------------
  // No gap: what every call keeps
  // ---------------------------------------------------------------------------

  ghost predicate Covered(db: Db, chain: Chain, syncFrom: nat, h: Hash) {
    h in db.synced || h in db.tips || (h in chain && chain[h].number < syncFrom)
  }

  /** The parent of every indexed block is indexed, waits on the persisted stack, or lies
      below the height the sync starts from. */
  ghost predicate Closed(db: Db, chain: Chain, syncFrom: nat) {
    && (forall t | t in db.tips :: t in chain)
    && (forall b | b in db.synced ::
          && b in chain && chain[b].number >= syncFrom
          && (chain[b].number > 0 ==> Covered(db, chain, syncFrom, chain[b].parent)))
  }

  ghost predicate Complete(db: Db, chain: Chain, syncFrom: nat) {
    forall b | b in chain && chain[b].number >= syncFrom :: b in db.synced
  }

  lemma {:induction false} ClosedGrows(db: Db, chain: Chain, chain': Chain, syncFrom: nat)
    requires Closed(db, chain, syncFrom) && WellFormed(chain) && Grows(chain, chain')
    ensures Closed(db, chain', syncFrom)
  {
    forall b | b in db.synced && chain'[b].number > 0
      ensures Covered(db, chain', syncFrom, chain'[b].parent)
    {
      assert Covered(db, chain, syncFrom, chain[b].parent);
    }
  }

  ghost predicate Passed(synced: set<Hash>, env: Env, syncFrom: nat, t: Hash) {
    t in synced || (t in env.chain && env.chain[t].number < syncFrom)
  }

  lemma {:induction false} SearchFacts(synced: set<Hash>, env: Env, tips: seq<Hash>, syncFrom: nat)
    ensures match SearchTips(synced, env, tips, syncFrom)
            case Operate(tip, header, rest) =>
              && |rest| < |tips| && rest == tips[..|rest|] && tip == tips[|rest|] && tip !in synced
              && tip in env.chain && header == env.chain[tip] && header.number >= syncFrom
              && (forall t | t in tips :: t in rest || t == tip || Passed(synced, env, syncFrom, t))
            case Exhausted => forall t | t in tips :: Passed(synced, env, syncFrom, t)
            case Lost => exists t | t in tips :: t !in env.chain || t in env.unreadable
    decreases |tips|
  {
    if tips != [] {
      var rest, tip := tips[..|tips| - 1], tips[|tips| - 1];
      assert tips == rest + [tip];
      if FetchHeader(synced, env, tip, syncFrom).Skip? {
        SearchFacts(synced, env, rest, syncFrom);
      }
    }
  }

  /** There is a block to index, its commit goes through and the commit of the stack after it does
      not. */
  ghost predicate TornCommit(db: Db, env: Env, syncFrom: nat) {
    var search := SearchTips(db.synced, env, StartingTips(db, env), syncFrom);
    && search.Operate? && IndexEntry(env, search.tip, search.header).Index?
    && env.mappingCommits && !env.tipsCommit
  }

  /** These are exactly the calls that fail and leave something behind. */
  lemma {:induction false} TornCommitFails(db: Db, env: Env, syncFrom: nat, cacheMore: bool)
    ensures TornCommit(db, env, syncFrom) <==>
            SyncOne(db, env, syncFrom, cacheMore).1.Failed? && SyncOne(db, env, syncFrom, cacheMore).0 != db
  {
    var search := SearchTips(db.synced, env, StartingTips(db, env), syncFrom);
    SearchFacts(db.synced, env, StartingTips(db, env), syncFrom);
    if search.Operate? && IndexEntry(env, search.tip, search.header).Index? {
      var db' := Record(db, IndexEntry(env, search.tip, search.header).entry, cacheMore);
      assert search.tip in db'.synced;
    }
  }

  lemma {:induction false} PushParentKeepsClosed(db: Db, db': Db, env: Env, syncFrom: nat, tip: Hash, rest: seq<Hash>)
    requires Closed(db, env.chain, syncFrom)
    requires tip in env.chain && env.chain[tip].number >= syncFrom
    requires forall t | t in rest + ParentTip(env.chain[tip]) :: t in env.chain
    requires forall t | t in db.tips :: t in rest || t == tip || Passed(db.synced, env, syncFrom, t)
    requires db'.synced == db.synced + {tip} && db'.tips == rest + ParentTip(env.chain[tip])
    ensures Closed(db', env.chain, syncFrom)
  {
    forall b | b in db'.synced && env.chain[b].number > 0
      ensures Covered(db', env.chain, syncFrom, env.chain[b].parent)
    {
      if b == tip {
        assert env.chain[b].parent == db'.tips[|rest|];
      } else {
        assert Covered(db, env.chain, syncFrom, env.chain[b].parent);
      }
    }
  }

  lemma {:induction false} StartingTipsKnown(db: Db, env: Env, syncFrom: nat)
    requires ValidEnv(env) && Closed(db, env.chain, syncFrom)
    ensures forall t | t in StartingTips(db, env) :: t in env.chain
    ensures forall t | t in db.tips :: t in StartingTips(db, env)
  {
  }

  lemma {:induction false} EmptyTipsKeepsClosed(db: Db, env: Env, syncFrom: nat)
    requires Closed(db, env.chain, syncFrom)
    requires forall t | t in db.tips :: Passed(db.synced, env, syncFrom, t)
    ensures Closed(db.(tips := []), env.chain, syncFrom)
  {
    forall b | b in db.synced && env.chain[b].number > 0
      ensures Covered(db.(tips := []), env.chain, syncFrom, env.chain[b].parent)
    {
      assert Covered(db, env.chain, syncFrom, env.chain[b].parent);
    }
  }

  lemma {:induction false} SyncedShape(db: Db, env: Env, syncFrom: nat, cacheMore: bool)
    requires SyncOne(db, env, syncFrom, cacheMore).1 == Synced
    ensures var search := SearchTips(db.synced, env, StartingTips(db, env), syncFrom);
            var db' := SyncOne(db, env, syncFrom, cacheMore).0;
            && search.Operate? && search.tip in env.chain && search.tip !in db.synced
            && search.header == env.chain[search.tip] && search.header.number >= syncFrom
            && db'.synced == db.synced + {search.tip} && db'.tips == search.rest + ParentTip(search.header)
  {
    SearchFacts(db.synced, env, StartingTips(db, env), syncFrom);
  }

  lemma {:induction false} IdleShape(db: Db, env: Env, syncFrom: nat, cacheMore: bool)
    requires SyncOne(db, env, syncFrom, cacheMore).1 == Idle
    ensures SyncOne(db, env, syncFrom, cacheMore).0 == db.(tips := [])
    ensures forall t | t in StartingTips(db, env) :: Passed(db.synced, env, syncFrom, t)
  {
    SearchFacts(db.synced, env, StartingTips(db, env), syncFrom);
  }

  lemma {:induction false} StepKeepsClosed(db: Db, env: Env, syncFrom: nat, cacheMore: bool)
    requires ValidEnv(env) && Closed(db, env.chain, syncFrom)
    requires !TornCommit(db, env, syncFrom)
    ensures Closed(SyncOne(db, env, syncFrom, cacheMore).0, env.chain, syncFrom)
  {
    TornCommitFails(db, env, syncFrom, cacheMore);
    var (db', outcome) := SyncOne(db, env, syncFrom, cacheMore);
    StartingTipsKnown(db, env, syncFrom);
    match outcome {
      case Synced =>
        SyncedShape(db, env, syncFrom, cacheMore);
        SearchFacts(db.synced, env, StartingTips(db, env), syncFrom);
        var search := SearchTips(db.synced, env, StartingTips(db, env), syncFrom);
        PushParentKeepsClosed(db, db', env, syncFrom, search.tip, search.rest);
      case Idle =>
        IdleShape(db, env, syncFrom, cacheMore);
        EmptyTipsKeepsClosed(db, env, syncFrom);
      case Failed(_) =>
    }
  }

  /** A torn commit keeps the tree closed exactly when the indexed block has no parent or its
      parent is already covered: otherwise the parent is forgotten. */
  lemma {:induction false} TornCommitForgets(db: Db, env: Env, syncFrom: nat, cacheMore: bool)
    requires ValidEnv(env) && Closed(db, env.chain, syncFrom)
    requires TornCommit(db, env, syncFrom)
    ensures var search := SearchTips(db.synced, env, StartingTips(db, env), syncFrom);
            && search.Operate?
            && (Closed(SyncOne(db, env, syncFrom, cacheMore).0, env.chain, syncFrom) <==>
                search.header.number == 0 || Covered(db, env.chain, syncFrom, search.header.parent))
  {
    TornShape(db, env, syncFrom, cacheMore);
    var search := SearchTips(db.synced, env, StartingTips(db, env), syncFrom);
    ForgettingParent(db, SyncOne(db, env, syncFrom, cacheMore).0, env, syncFrom, search.tip);
  }

  lemma {:induction false} TornShape(db: Db, env: Env, syncFrom: nat, cacheMore: bool)
    requires TornCommit(db, env, syncFrom)
    ensures var search := SearchTips(db.synced, env, StartingTips(db, env), syncFrom);
            var db' := SyncOne(db, env, syncFrom, cacheMore).0;
            && search.Operate? && search.tip in env.chain && search.tip !in db.synced
            && search.header == env.chain[search.tip] && search.header.number >= syncFrom
            && db'.synced == db.synced + {search.tip} && db'.tips == db.tips
  {
    SearchFacts(db.synced, env, StartingTips(db, env), syncFrom);
  }

  lemma {:induction false} ForgettingParent(db: Db, db': Db, env: Env, syncFrom: nat, tip: Hash)
    requires WellFormed(env.chain) && Closed(db, env.chain, syncFrom)
    requires tip in env.chain && env.chain[tip].number >= syncFrom && tip !in db.synced
    requires db'.synced == db.synced + {tip} && db'.tips == db.tips
    ensures Closed(db', env.chain, syncFrom) <==>
            env.chain[tip].number == 0 || Covered(db, env.chain, syncFrom, env.chain[tip].parent)
  {
    if Closed(db', env.chain, syncFrom) && env.chain[tip].number > 0 {
      assert Covered(db', env.chain, syncFrom, env.chain[tip].parent);
    }
    if env.chain[tip].number == 0 || Covered(db, env.chain, syncFrom, env.chain[tip].parent) {
      forall b | b in db'.synced && env.chain[b].number > 0
        ensures Covered(db', env.chain, syncFrom, env.chain[b].parent)
      {
        assert b != tip ==> Covered(db, env.chain, syncFrom, env.chain[b].parent);
      }
    }
  }

  // ---------------------------------------------------------------------------
  // Completeness
  // ---------------------------------------------------------------------------

  ghost function Above(chain: Chain, n: nat): set<Hash> {
    set h | h in chain && chain[h].number > n
  }

  /** With an empty stack and every leaf passed, each block at or above `syncFrom` is indexed:
      follow its descendants up to a leaf, then come back down through the parents. */
  lemma {:induction false} DescendantsReach(db: Db, env: Env, syncFrom: nat, b: Hash)
    requires ValidEnv(env) && Closed(db, env.chain, syncFrom) && db.tips == []
    requires forall h | IsLeaf(env.chain, h) :: Passed(db.synced, env, syncFrom, h)
    requires b in env.chain && env.chain[b].number >= syncFrom
    ensures b in db.synced
    decreases Above(env.chain, env.chain[b].number)
  {
    if !IsLeaf(env.chain, b) {
      var c :| c in env.chain && env.chain[c].number > 0 && env.chain[c].parent == b;
      assert c in Above(env.chain, env.chain[b].number);
      DescendantsReach(db, env, syncFrom, c);
      assert Covered(db, env.chain, syncFrom, env.chain[c].parent);
    }
  }

  ghost predicate LeavesPassed(synced: set<Hash>, env: Env, syncFrom: nat) {
    forall h | IsLeaf(env.chain, h) :: Passed(synced, env, syncFrom, h)
  }

  /** After a call that finds nothing to do the index is complete, with no gap on any fork, if and
      only if every leaf is indexed or lies below the start. */
  lemma {:induction false} IdleIsCompleteIffLeavesPassed(db: Db, env: Env, syncFrom: nat, cacheMore: bool)
    requires ValidEnv(env) && Closed(db, env.chain, syncFrom) && SyncOne(db, env, syncFrom, cacheMore).1 == Idle
    ensures Complete(SyncOne(db, env, syncFrom, cacheMore).0, env.chain, syncFrom)
            <==> LeavesPassed(db.synced, env, syncFrom)
  {
    IdleShape(db, env, syncFrom, cacheMore);
    StartingTipsKnown(db, env, syncFrom);
    EmptyTipsKeepsClosed(db, env, syncFrom);
    if LeavesPassed(db.synced, env, syncFrom) {
      forall b | b in env.chain && env.chain[b].number >= syncFrom
        ensures b in db.synced
      {
        DescendantsReach(db.(tips := []), env, syncFrom, b);
      }
    }
  }

  /** A call that starts from an empty stack looks at every leaf, so finding nothing to do proves the
      index complete. */
  lemma {:induction false} IdleFromEmptyIsComplete(db: Db, env: Env, syncFrom: nat, cacheMore: bool)
    requires ValidEnv(env) && Closed(db, env.chain, syncFrom) && db.tips == []
    requires SyncOne(db, env, syncFrom, cacheMore).1 == Idle
    ensures Complete(db, env.chain, syncFrom)
  {
    IdleShape(db, env, syncFrom, cacheMore);
    IdleIsCompleteIffLeavesPassed(db, env, syncFrom, cacheMore);
  }

  /** The tip commit is lost once and block 0 is never indexed: later calls from the empty
      stack report that there is nothing to do. */
  lemma {:induction false} TornCommitLeavesGap()
    ensures exists db: Db, torn: Env, env: Env ::
              && ValidEnv(torn) && FaultFree(env) && torn.chain == env.chain
              && Closed(db, env.chain, 0) && TornCommit(db, torn, 0)
              && var db' := SyncOne(db, torn, 0, false).0;
                 && db'.tips == [] && SyncOne(db', env, 0, false) == (db', Idle)
                 && !Complete(db', env.chain, 0)
  {
    var chain: Chain := map[10 := SubstrateHeader(0, 0, []), 11 := SubstrateHeader(1, 10, [])];
    assert !IsLeaf(chain, 10) && IsLeaf(chain, 11) by {
      assert chain[11].parent == 10;
    }
    var env := Env(chain, Some([11]), {}, true, Some(ZERO), true, true);
    var torn := env.(tipsCommit := false);
    var db := Db({}, map[], map[], map[], []);
    assert SearchTips({}, torn, [11], 0) == Operate(11, chain[11], []);
    var db' := SyncOne(db, torn, 0, false).0;
    assert db' == Db({11}, map[], map[], map[], []);
    assert SearchTips({11}, env, [11], 0) == SearchTips({11}, env, [], 0);
    assert SyncOne(db', env, 0, false) == (db', Idle);
    assert 10 in chain && 10 !in db'.synced;
  }

  // ---------------------------------------------------------------------------
  // Whole runs over a growing tree
  // ---------------------------------------------------------------------------

  function Run(db: Db, envs: seq<Env>, syncFrom: nat, cacheMore: bool): Db {
    if envs == [] then db
    else SyncOne(Run(db, envs[..|envs| - 1], syncFrom, cacheMore), envs[|envs| - 1], syncFrom, cacheMore).0
  }

  ghost predicate GrowingTree(envs: seq<Env>) {
    && (forall i | 0 <= i < |envs| :: ValidEnv(envs[i]))
    && (forall i, j | 0 <= i < j < |envs| :: Grows(envs[i].chain, envs[j].chain))
  }

  const EMPTY_DB := Db({}, map[], map[], map[], [])

  ghost predicate NeverTorn(envs: seq<Env>, syncFrom: nat, cacheMore: bool) {
    forall i | 0 <= i < |envs| :: !TornCommit(Run(EMPTY_DB, envs[..i], syncFrom, cacheMore), envs[i], syncFrom)
  }

  lemma {:induction false} RunKeepsClosed(envs: seq<Env>, syncFrom: nat, cacheMore: bool)
    requires envs != [] && GrowingTree(envs) && NeverTorn(envs, syncFrom, cacheMore)
    ensures Closed(Run(EMPTY_DB, envs, syncFrom, cacheMore), envs[|envs| - 1].chain, syncFrom)
    decreases |envs|
  {
    var init, last := envs[..|envs| - 1], envs[|envs| - 1];
    var db := Run(EMPTY_DB, init, syncFrom, cacheMore);
    if init != [] {
      assert forall i | 0 <= i < |init| :: envs[..i] == init[..i];
      RunKeepsClosed(init, syncFrom, cacheMore);
      ClosedGrows(db, init[|init| - 1].chain, last.chain, syncFrom);
    }
    StepKeepsClosed(db, last, syncFrom, cacheMore);
  }

  function OutcomeAt(envs: seq<Env>, i: nat, syncFrom: nat, cacheMore: bool): Outcome
    requires i < |envs|
  {
    SyncOne(Run(EMPTY_DB, envs[..i], syncFrom, cacheMore), envs[i], syncFrom, cacheMore).1
  }

  /** On every run from the empty database over a growing tree, without a torn commit: two calls
      in a row that find nothing to do leave no block at or above `syncFrom` unindexed. */
  lemma {:induction false} RunIdleTwiceIsComplete(envs: seq<Env>, syncFrom: nat, cacheMore: bool)
    requires |envs| >= 2 && GrowingTree(envs) && NeverTorn(envs, syncFrom, cacheMore)
    requires OutcomeAt(envs, |envs| - 2, syncFrom, cacheMore) == Idle
    requires OutcomeAt(envs, |envs| - 1, syncFrom, cacheMore) == Idle
    ensures Complete(Run(EMPTY_DB, envs, syncFrom, cacheMore), envs[|envs| - 1].chain, syncFrom)
  {
    var n := |envs| - 1;
    var init, env := envs[..n], envs[n];
    assert forall i | 0 <= i < n :: envs[..i] == init[..i];
    RunKeepsClosed(init, syncFrom, cacheMore);
    var before := Run(EMPTY_DB, envs[..n - 1], syncFrom, cacheMore);
    assert init[..n - 1] == envs[..n - 1];
    IdleShape(before, envs[n - 1], syncFrom, cacheMore);
    var db := Run(EMPTY_DB, init, syncFrom, cacheMore);
    ClosedGrows(db, envs[n - 1].chain, env.chain, syncFrom);
    IdleFromEmptyIsComplete(db, env, syncFrom, cacheMore);
    IdleShape(db, env, syncFrom, cacheMore);
  }

  // ---------------------------------------------------------------------------
  // Progress
  // ---------------------------------------------------------------------------

  ghost function Unsynced(db: Db, chain: Chain, syncFrom: nat): set<Hash> {
    set h | h in chain && chain[h].number >= syncFrom && h !in db.synced
  }

  /** A successful call indexes exactly one new block of the tree. */
  lemma {:induction false} SyncedShrinks(db: Db, env: Env, syncFrom: nat, cacheMore: bool)
    requires SyncOne(db, env, syncFrom, cacheMore).1 == Synced
    ensures var db' := SyncOne(db, env, syncFrom, cacheMore).0;
            exists b | b in Unsynced(db, env.chain, syncFrom) ::
              && db'.synced == db.synced + {b}
              && Unsynced(db', env.chain, syncFrom) == Unsynced(db, env.chain, syncFrom) - {b}
  {
    SyncedShape(db, env, syncFrom, cacheMore);
    var b := SearchTips(db.synced, env, StartingTips(db, env), syncFrom).tip;
    assert b in Unsynced(db, env.chain, syncFrom);
  }

  /** Without faults a call never fails. */
  lemma {:induction false} FaultFreeSucceeds(db: Db, env: Env, syncFrom: nat, cacheMore: bool)
    requires FaultFree(env) && Closed(db, env.chain, syncFrom)
    ensures !SyncOne(db, env, syncFrom, cacheMore).1.Failed?
  {
    SearchFacts(db.synced, env, StartingTips(db, env), syncFrom);
  }

  /** The digest and the storage copy of a block are read from the same header, so the check
      that they agree never fails, whatever faults occur. */
  lemma {:induction false} MismatchUnreachable(db: Db, env: Env, syncFrom: nat, cacheMore: bool)
    ensures SyncOne(db, env, syncFrom, cacheMore).1 != Failed(HashMismatch)
  {
    SearchFacts(db.synced, env, StartingTips(db, env), syncFrom);
  }

  // ---------------------------------------------------------------------------
  // A batch of calls
  // ---------------------------------------------------------------------------

  /** `sync_blocks` with as many attempts as environments: it stops trying after the first success. */
  function SyncMany(db: Db, envs: seq<Env>, syncFrom: nat, cacheMore: bool): (Db, Outcome)
    decreases |envs|
  {
    if envs == [] then (db, Idle)
    else
      var (db', outcome) := SyncOne(db, envs[0], syncFrom, cacheMore);
      if outcome == Idle then SyncMany(db', envs[1..], syncFrom, cacheMore) else (db', outcome)
  }

  lemma {:induction false} SyncManyOnce(db: Db, envs: seq<Env>, syncFrom: nat, cacheMore: bool)
    requires |envs| == 1
    ensures SyncMany(db, envs, syncFrom, cacheMore) == SyncOne(db, envs[0], syncFrom, cacheMore)
  {
    assert envs[1..] == [];
  }

  /** Whatever the limit, one batch indexes at most one block. */
  lemma {:induction false} SyncManyAddsAtMostOne(db: Db, envs: seq<Env>, syncFrom: nat, cacheMore: bool)
    ensures var (db', outcome) := SyncMany(db, envs, syncFrom, cacheMore);
            && (outcome == Idle ==> db'.synced == db.synced)
            && (outcome == Synced ==> exists b | b !in db.synced :: db'.synced == db.synced + {b})
            && |db'.synced| <= |db.synced| + 1
    decreases |envs|
  {
    if envs != [] {
      var (db', outcome) := SyncOne(db, envs[0], syncFrom, cacheMore);
      match outcome {
        case Idle =>
          IdleShape(db, envs[0], syncFrom, cacheMore);
          SyncManyAddsAtMostOne(db', envs[1..], syncFrom, cacheMore);
        case Synced => SyncedShrinks(db, envs[0], syncFrom, cacheMore);
        case Failed(_) =>
          if TornCommit(db, envs[0], syncFrom) {
            TornShape(db, envs[0], syncFrom, cacheMore);
          }
      }
    }
  }

  /** An attempt of the batch loses its tip commit. */
  ghost predicate BatchTorn(db: Db, envs: seq<Env>, syncFrom: nat, cacheMore: bool)
    decreases |envs|
  {
    envs != [] &&
    var (db', outcome) := SyncOne(db, envs[0], syncFrom, cacheMore);
    TornCommit(db, envs[0], syncFrom) || (outcome == Idle && BatchTorn(db', envs[1..], syncFrom, cacheMore))
  }

  /** A batch keeps the tree closed, also when it fails, unless an attempt loses its tip commit. */
  lemma {:induction false} SyncManyKeepsClosed(db: Db, envs: seq<Env>, syncFrom: nat, cacheMore: bool)
    requires envs != [] && GrowingTree(envs) && Closed(db, envs[0].chain, syncFrom)
    requires !BatchTorn(db, envs, syncFrom, cacheMore)
    ensures Closed(SyncMany(db, envs, syncFrom, cacheMore).0, envs[|envs| - 1].chain, syncFrom)
    decreases |envs|
  {
    var (db', outcome) := SyncOne(db, envs[0], syncFrom, cacheMore);
    StepKeepsClosed(db, envs[0], syncFrom, cacheMore);
    if |envs| == 1 {
      SyncManyOnce(db, envs, syncFrom, cacheMore);
    } else {
      if outcome == Idle {
        ClosedGrows(db', envs[0].chain, envs[1].chain, syncFrom);
        SyncManyKeepsClosed(db', envs[1..], syncFrom, cacheMore);
      } else {
        ClosedGrows(db', envs[0].chain, envs[|envs| - 1].chain, syncFrom);
      }
    }
  }

  /** A torn attempt ends the batch with a failure. */
  lemma {:induction false} TornBatchFails(db: Db, envs: seq<Env>, syncFrom: nat, cacheMore: bool)
    requires BatchTorn(db, envs, syncFrom, cacheMore)
    ensures SyncMany(db, envs, syncFrom, cacheMore).1.Failed?
    decreases |envs|
  {
    TornCommitFails(db, envs[0], syncFrom, cacheMore);
    if !TornCommit(db, envs[0], syncFrom) {
      TornBatchFails(SyncOne(db, envs[0], syncFrom, cacheMore).0, envs[1..], syncFrom, cacheMore);
    }
  }

  /** After a batch that indexes nothing, whatever its number of attempts, the index is complete if
      and only if every leaf the last attempt could see is indexed or lies below the start. */
  lemma {:induction false} IdleBatchIsCompleteIffLeavesPassed(db: Db, envs: seq<Env>, syncFrom: nat, cacheMore: bool)
    requires GrowingTree(envs) && envs != [] && Closed(db, envs[0].chain, syncFrom)
    requires SyncMany(db, envs, syncFrom, cacheMore).1 == Idle
    ensures var last := envs[|envs| - 1];
            Complete(SyncMany(db, envs, syncFrom, cacheMore).0, last.chain, syncFrom)
            <==> LeavesPassed(db.synced, last, syncFrom)
    decreases |envs|
  {
    var (db', outcome) := SyncOne(db, envs[0], syncFrom, cacheMore);
    StepKeepsIdle(db, envs[0], syncFrom, cacheMore);
    if |envs| == 1 {
      SyncManyOnce(db, envs, syncFrom, cacheMore);
      IdleIsCompleteIffLeavesPassed(db, envs[0], syncFrom, cacheMore);
    } else {
      ClosedGrows(db', envs[0].chain, envs[1].chain, syncFrom);
      IdleBatchIsCompleteIffLeavesPassed(db', envs[1..], syncFrom, cacheMore);
    }
  }

  lemma {:induction false} StepKeepsIdle(db: Db, env: Env, syncFrom: nat, cacheMore: bool)
    requires ValidEnv(env) && Closed(db, env.chain, syncFrom) && SyncOne(db, env, syncFrom, cacheMore).1 == Idle
    ensures SyncOne(db, env, syncFrom, cacheMore).0 == db.(tips := [])
    ensures Closed(db.(tips := []), env.chain, syncFrom)
  {
    IdleShape(db, env, syncFrom, cacheMore);
    StartingTipsKnown(db, env, syncFrom);
    EmptyTipsKeepsClosed(db, env, syncFrom);
  }

  /** A batch with at least two attempts that indexes nothing meets that condition: its last attempt
      started from an empty stack.  The node runs batches of three. */
  lemma {:induction false} IdleBatchIsComplete(db: Db, envs: seq<Env>, syncFrom: nat, cacheMore: bool)
    requires GrowingTree(envs) && |envs| > 0 && Closed(db, envs[0].chain, syncFrom)
    requires |envs| >= 2 || db.tips == []
    requires SyncMany(db, envs, syncFrom, cacheMore).1 == Idle
    ensures Complete(SyncMany(db, envs, syncFrom, cacheMore).0, envs[|envs| - 1].chain, syncFrom)
    decreases |envs|
  {
    var (db', outcome) := SyncOne(db, envs[0], syncFrom, cacheMore);
    StepKeepsIdle(db, envs[0], syncFrom, cacheMore);
    if |envs| == 1 {
      IdleFromEmptyIsComplete(db, envs[0], syncFrom, cacheMore);
    } else {
      ClosedGrows(db', envs[0].chain, envs[1].chain, syncFrom);
      IdleBatchIsComplete(db', envs[1..], syncFrom, cacheMore);
    }
  }

  /** A batch of one attempt need not meet it: it may only have popped a stale tip. */
  lemma {:induction false} SingleAttemptMayBeIncomplete()
    ensures exists db: Db, env: Env ::
              && FaultFree(env) && Closed(db, env.chain, 0)
              && SyncMany(db, [env], 0, false).1 == Idle
              && !Complete(SyncMany(db, [env], 0, false).0, env.chain, 0)
  {
    var chain: Chain := map[10 := SubstrateHeader(0, 0, []), 11 := SubstrateHeader(1, 10, [])];
    assert !IsLeaf(chain, 10) && IsLeaf(chain, 11) by {
      assert chain[11].parent == 10;
    }
    var env := Env(chain, Some([11]), {}, true, Some(ZERO), true, true);
    var db := Db({10}, map[], map[], map[], [10]);
    assert SearchTips({10}, env, [10], 0) == SearchTips({10}, env, [], 0);
    assert SyncOne(db, env, 0, false) == (db.(tips := []), Idle);
    var db' := db.(tips := []);
SyncManyOnce(db, [env], 0, false);
    assert FaultFree(env) && Closed(db, env.chain, 0);
    assert 11 in chain && 11 !in db'.synced;
  }
}
