/** The lookup of a transaction by its hash, through the index and the cache of hashes. */
module TransactionLookup {
  import opened Basics
  import opened Felts
  import opened Transactions
  import opened Blocks
  import opened MappingSync
  import opened MappingIndex
  import opened Receipts

  /** The first transaction of the block with the hash, hashes recomputed. */
  function FindRecomputed(block: Block, chainId: Felt, t: Felt): Option<Transaction> {
    var i := FirstOf(TransactionHashes(block, chainId), t);
    if i < |block.transactions| then Some(block.transactions[i]) else None
  }

  /** The first transaction of the block paired with the hash in a list of hashes. */
  function FindPaired(block: Block, hashes: seq<Felt>, t: Felt): Option<Transaction> {
    var i := FirstOf(hashes, t);
    if i < |hashes| && i < |block.transactions| then Some(block.transactions[i]) else None
  }

  datatype TxLookup = TxFound(tx: Transaction) | TxnHashNotFound | BlockNotFound

  function FoundOr(tx: Option<Transaction>): TxLookup {
    if tx.Some? then TxFound(tx.value) else TxnHashNotFound
  }

  function GetTransactionByHash(db: Db, chain: Chain, chainId: Felt, t: Felt): TxLookup {
    match Get(db.txMapping, t)
    case None => TxnHashNotFound
    case Some(b) =>
      if b !in chain || !FindStarknetBlock(chain[b].logs).Found? then BlockNotFound
      else
        var block := FindStarknetBlock(chain[b].logs).block;
        match Get(db.txCache, HeaderHash(block.header))
        case Some(hashes) => FoundOr(FindPaired(block, hashes, t))
        case None => FoundOr(FindRecomputed(block, chainId, t))
  }

  // ---------------------------------------------------------------------------
  // When a list of hashes serves a block
  // ---------------------------------------------------------------------------

  /** Pairing with a list finds what recomputing finds, for all hashes, if the list starts with the
      hashes of the block, and, when those are distinct, only if it does. */
  lemma {:induction false} PairingAgrees(block: Block, hashes: seq<Felt>, chainId: Felt)
    ensures TransactionHashes(block, chainId) <= hashes ==>
              forall t :: FindPaired(block, hashes, t) == FindRecomputed(block, chainId, t)
    ensures DistinctHashes(block.transactions, chainId)
            && (forall t :: FindPaired(block, hashes, t) == FindRecomputed(block, chainId, t)) ==>
              TransactionHashes(block, chainId) <= hashes
  {
    var own := TransactionHashes(block, chainId);
    if own <= hashes {
      forall t ensures FindPaired(block, hashes, t) == FindRecomputed(block, chainId, t) {
        FirstOfFacts(own, t);
        FirstOfFacts(hashes, t);
        if FirstOf(own, t) < |own| {
          FirstOfAt(hashes, t, FirstOf(own, t));
        }
      }
    }
    if DistinctHashes(block.transactions, chainId)
       && forall t :: FindPaired(block, hashes, t) == FindRecomputed(block, chainId, t)
    {
      forall i | 0 <= i < |own| ensures i < |hashes| && hashes[i] == own[i] {
        PairedAtItsPlace(block, hashes, chainId, i);
      }
      if own != [] {
        PairedAtItsPlace(block, hashes, chainId, |own| - 1);
      }
    }
  }

  lemma {:induction false} PairedAtItsPlace(block: Block, hashes: seq<Felt>, chainId: Felt, i: nat)
    requires i < |block.transactions| && DistinctHashes(block.transactions, chainId)
    requires var t := ComputeHash(block.transactions[i], chainId, false);
             FindPaired(block, hashes, t) == FindRecomputed(block, chainId, t)
    ensures i < |hashes| && hashes[i] == ComputeHash(block.transactions[i], chainId, false)
  {
    var own, txs := TransactionHashes(block, chainId), block.transactions;
    assert own == HashesOf(txs, chainId);
    var t := own[i];
    FirstOfAt(own, t, i);
    FirstOfFacts(hashes, t);
    var k := FirstOf(hashes, t);
    assert txs[k] == txs[i];
    assert own[k] == own[i];
  }

  // ---------------------------------------------------------------------------
  // The lookup on the index of a run
  // ---------------------------------------------------------------------------

  /** Blocks with the same Starknet hash hold the same transactions. */
  ghost predicate HashNamesTransactions(chain: Chain) {
    forall b, b' | b in chain && b' in chain && SameStarknetHash(chain, b, b') ::
      FindStarknetBlock(chain[b].logs).block.transactions == FindStarknetBlock(chain[b'].logs).block.transactions
  }

  ghost predicate SameStarknetHash(chain: Chain, b: Hash, b': Hash)
    requires b in chain && b' in chain
  {
    var found, found' := FindStarknetBlock(chain[b].logs), FindStarknetBlock(chain[b'].logs);
    found.Found? && found'.Found? && HeaderHash(found.block.header) == HeaderHash(found'.block.header)
  }

  lemma {:induction false} LastHashesFacts(history: seq<Entry>, h: Felt)
    ensures LastHashes(history, h).Some? ==>
              exists e | e in history :: EntryWraps(e, h) && Some(e.wraps.value.txHashes) == LastHashes(history, h)
    decreases |history|
  {
    if history != [] {
      var n := |history| - 1;
      assert history == history[..n] + [history[n]];
      LastHashesFacts(history[..n], h);
    }
  }

  /** A cached list holds the hashes of the block that is looked up. */
  lemma {:induction false} CachedHashesAreOwn(db: Db, history: seq<Entry>, chain: Chain, cacheMore: bool, chainId: Felt,
                                              b: Hash)
    requires Refines(db, history, cacheMore) && forall e | e in history :: Sound(e, chain, chainId)
    requires HashNamesTransactions(chain) && NumbersAligned(chain)
    requires b in chain && FindStarknetBlock(chain[b].logs).Found? && chain[b].number > 0
    ensures var block := FindStarknetBlock(chain[b].logs).block;
            var cached := Get(db.txCache, HeaderHash(block.header));
            cached.Some? ==> cached.value == TransactionHashes(block, chainId)
  {
    var block := FindStarknetBlock(chain[b].logs).block;
    var h := HeaderHash(block.header);
    assert Get(db.txCache, h) == if cacheMore then LastHashes(history, h) else None;
    if Get(db.txCache, h).Some? {
      LastHashesFacts(history, h);
      var e :| e in history && EntryWraps(e, h) && Some(e.wraps.value.txHashes) == LastHashes(history, h);
      assert Sound(e, chain, chainId) && SameStarknetHash(chain, b, e.block);
      var other := FindStarknetBlock(chain[e.block].logs).block;
      HeaderHashCommits(block.header, other.header);
      assert chain[e.block].number == chain[b].number;
      assert other.transactions == block.transactions;
      assert TransactionHashes(other, chainId) == TransactionHashes(block, chainId);
    }
  }

  /** A transaction is found exactly when the index knows its hash, and what is found is the first
      transaction with that hash in an indexed block. */
  ghost predicate RightAnswer(db: Db, chain: Chain, chainId: Felt, t: Felt, r: TxLookup) {
    && (t !in db.txMapping ==> r == TxnHashNotFound)
    && (t in db.txMapping ==>
          var b := db.txMapping[t];
          && b in db.synced && b in chain && FindStarknetBlock(chain[b].logs).Found?
          && r.TxFound? && ComputeHash(r.tx, chainId, false) == t
          && Some(r.tx) == FindRecomputed(FindStarknetBlock(chain[b].logs).block, chainId, t))
  }

  lemma {:induction false} IndexedLookup(db: Db, history: seq<Entry>, chain: Chain, cacheMore: bool, chainId: Felt,
                                         t: Felt)
    requires Refines(db, history, cacheMore) && forall e | e in history :: Sound(e, chain, chainId)
    requires HashNamesTransactions(chain) && NumbersAligned(chain)
    requires t in db.txMapping ==> db.txMapping[t] in db.synced && Contains(chain, chainId, db.txMapping[t], t)
    ensures RightAnswer(db, chain, chainId, t, GetTransactionByHash(db, chain, chainId, t))
  {
    if t in db.txMapping {
      var b := db.txMapping[t];
      var block := FindStarknetBlock(chain[b].logs).block;
      CachedHashesAreOwn(db, history, chain, cacheMore, chainId, b);
      FirstOfFacts(TransactionHashes(block, chainId), t);
    }
  }

  /** On the index of every run over a growing tree, cached or not, every lookup gives the right
      answer, provided blocks with the same Starknet hash hold the same transactions. */
  lemma {:induction false} LookupIsRight(envs: seq<Env>, chain: Chain, syncFrom: nat, cacheMore: bool, chainId: Felt,
                                         t: Felt)
    requires SameChainId(envs, chainId) && forall i | 0 <= i < |envs| :: Grows(envs[i].chain, chain)
    requires HashNamesTransactions(chain) && NumbersAligned(chain)
    ensures var db := Run(EMPTY_DB, envs, syncFrom, cacheMore);
            RightAnswer(db, chain, chainId, t, GetTransactionByHash(db, chain, chainId, t))
  {
    var db, history := Run(EMPTY_DB, envs, syncFrom, cacheMore), History(envs, syncFrom, cacheMore);
    RunRefines(envs, syncFrom, cacheMore);
    HistoryIsSound(envs, chain, syncFrom, cacheMore, chainId);
    RefinedIndexIsSound(db, history, chain, cacheMore, chainId);
    IndexedLookup(db, history, chain, cacheMore, chainId, t);
  }

  /** No two blocks of the tree have the same height. */
  ghost predicate NoForks(chain: Chain) {
    forall b, b' | b in chain && b' in chain && chain[b].number == chain[b'].number :: b == b'
  }

  /** On a chain without forks every lookup gives the right answer, cached or not. */
  lemma {:induction false} LookupIsRightWithoutForks(envs: seq<Env>, chain: Chain, syncFrom: nat, cacheMore: bool,
                                                     chainId: Felt, t: Felt)
    requires SameChainId(envs, chainId) && forall i | 0 <= i < |envs| :: Grows(envs[i].chain, chain)
    requires NoForks(chain) && NumbersAligned(chain)
    ensures var db := Run(EMPTY_DB, envs, syncFrom, cacheMore);
            RightAnswer(db, chain, chainId, t, GetTransactionByHash(db, chain, chainId, t))
  {
    forall b, b' | b in chain && b' in chain && SameStarknetHash(chain, b, b') ensures b == b' {
      HeaderHashCommits(FindStarknetBlock(chain[b].logs).block.header, FindStarknetBlock(chain[b'].logs).block.header);
    }
    LookupIsRight(envs, chain, syncFrom, cacheMore, chainId, t);
  }

  // ---------------------------------------------------------------------------
  // The exact condition, with caching on
  // ---------------------------------------------------------------------------

  lemma {:induction false} WrappedHasHashes(history: seq<Entry>, e: Entry, h: Felt)
    requires e in history && EntryWraps(e, h)
    ensures LastHashes(history, h).Some?
    decreases |history|
  {
    var n := |history| - 1;
    if !EntryWraps(history[n], h) {
      WrappedHasHashes(history[..n], e, h);
    }
  }

  /** The list of hashes that the cache holds for the Starknet hash of a block. */
  function CachedList(history: seq<Entry>, block: Block): seq<Felt> {
    var list := LastHashes(history, HeaderHash(block.header));
    if list.Some? then list.value else []
  }

  lemma {:induction false} IndexedHasList(db: Db, history: seq<Entry>, chain: Chain, chainId: Felt, t: Felt)
    requires Refines(db, history, true) && forall e | e in history :: Sound(e, chain, chainId)
    requires t in db.txMapping
    ensures var b := db.txMapping[t];
            && b in db.synced && Contains(chain, chainId, b, t) && FindStarknetBlock(chain[b].logs).Found?
            && var block := FindStarknetBlock(chain[b].logs).block;
               Get(db.txCache, HeaderHash(block.header)) == Some(CachedList(history, block))
  {
    var b := db.txMapping[t];
    LastContainingFacts(history, t);
    assert Get(db.txMapping, t) == LastContaining(history, t) == Some(b);
    var e :| e in history && e.block == b && EntryContains(e, t);
    assert Sound(e, chain, chainId);
    var h := HeaderHash(FindStarknetBlock(chain[b].logs).block.header);
    WrappedHasHashes(history, e, h);
    assert Get(db.txCache, h) == LastHashes(history, h);
  }

  /** The transaction at place `i` of a block is found through a list if and only if the list has its
      hash at that place for the first time. */
  lemma {:induction false} PairedIff(block: Block, list: seq<Felt>, chainId: Felt, i: nat)
    requires i < |block.transactions| && DistinctHashes(block.transactions, chainId)
    ensures var t := TransactionHashes(block, chainId)[i];
            && FindRecomputed(block, chainId, t) == Some(block.transactions[i])
            && (FindPaired(block, list, t) == Some(block.transactions[i]) <==> i < |list| && FirstOf(list, t) == i)
  {
    var own, txs := TransactionHashes(block, chainId), block.transactions;
    assert own == HashesOf(txs, chainId);
    var t := own[i];
    FirstOfAt(own, t, i);
    FirstOfFacts(list, t);
    var k := FirstOf(list, t);
    if k < |list| && k < |txs| && txs[k] == txs[i] {
      assert own[k] == own[i];
    }
  }

  /** On the index of every run with caching on: the lookup of a transaction gives the right answer if
      and only if the list recorded last for the Starknet hash of its block has the hash of the
      transaction at its place for the first time. */
  lemma {:induction false} CachedLookupIff(envs: seq<Env>, chain: Chain, syncFrom: nat, chainId: Felt, t: Felt, i: nat)
    requires SameChainId(envs, chainId) && forall k | 0 <= k < |envs| :: Grows(envs[k].chain, chain)
    requires var db := Run(EMPTY_DB, envs, syncFrom, true);
             && t in db.txMapping && db.txMapping[t] in chain
             && var found := FindStarknetBlock(chain[db.txMapping[t]].logs);
                && found.Found? && DistinctHashes(found.block.transactions, chainId)
                && i < |found.block.transactions| && TransactionHashes(found.block, chainId)[i] == t
    ensures var db := Run(EMPTY_DB, envs, syncFrom, true);
            var list := CachedList(History(envs, syncFrom, true), FindStarknetBlock(chain[db.txMapping[t]].logs).block);
            RightAnswer(db, chain, chainId, t, GetTransactionByHash(db, chain, chainId, t))
            <==> i < |list| && FirstOf(list, t) == i
  {
    var db, history := Run(EMPTY_DB, envs, syncFrom, true), History(envs, syncFrom, true);
    RunRefines(envs, syncFrom, true);
    HistoryIsSound(envs, chain, syncFrom, true, chainId);
    IndexedHasList(db, history, chain, chainId, t);
    var block := FindStarknetBlock(chain[db.txMapping[t]].logs).block;
    PairedIff(block, CachedList(history, block), chainId, i);
  }

  /** All transactions of a block are looked up there and answered rightly. */
  ghost predicate AllRight(db: Db, chain: Chain, chainId: Felt, block: Block) {
    forall i | 0 <= i < |block.transactions| ::
      var t := TransactionHashes(block, chainId)[i];
      RightAnswer(db, chain, chainId, t, GetTransactionByHash(db, chain, chainId, t))
  }

  /** For a block whose transactions are indexed under it, all of them are found if and only if the
      list recorded last for its Starknet hash starts with its own hashes. */
  lemma {:induction false} CachedBlockIff(envs: seq<Env>, chain: Chain, syncFrom: nat, chainId: Felt, b: Hash)
    requires SameChainId(envs, chainId) && forall k | 0 <= k < |envs| :: Grows(envs[k].chain, chain)
    requires b in chain && FindStarknetBlock(chain[b].logs).Found?
    requires var db, block := Run(EMPTY_DB, envs, syncFrom, true), FindStarknetBlock(chain[b].logs).block;
             && DistinctHashes(block.transactions, chainId)
             && forall t | t in TransactionHashes(block, chainId) :: Get(db.txMapping, t) == Some(b)
    ensures var db, block := Run(EMPTY_DB, envs, syncFrom, true), FindStarknetBlock(chain[b].logs).block;
            AllRight(db, chain, chainId, block)
            <==> TransactionHashes(block, chainId) <= CachedList(History(envs, syncFrom, true), block)
  {
    var db, block := Run(EMPTY_DB, envs, syncFrom, true), FindStarknetBlock(chain[b].logs).block;
    var own, list := TransactionHashes(block, chainId), CachedList(History(envs, syncFrom, true), block);
    forall i | 0 <= i < |own|
      ensures RightAnswer(db, chain, chainId, own[i], GetTransactionByHash(db, chain, chainId, own[i]))
              <==> FirstAt(own, list, i)
    {
      assert own[i] in own;
      CachedLookupIff(envs, chain, syncFrom, chainId, own[i], i);
    }
    assert own == HashesOf(block.transactions, chainId);
    FirstPlaces(own, list);
    if AllRight(db, chain, chainId, block) {
      forall i | 0 <= i < |own| ensures FirstAt(own, list, i) {
        assert RightAnswer(db, chain, chainId, own[i], GetTransactionByHash(db, chain, chainId, own[i]));
      }
    }
  }

  ghost predicate FirstAt(own: seq<Felt>, list: seq<Felt>, i: nat)
    requires i < |own|
  {
    i < |list| && FirstOf(list, own[i]) == i
  }

  lemma {:induction false} FirstPlaces(own: seq<Felt>, list: seq<Felt>)
    requires Distinct(own)
    ensures (forall i | 0 <= i < |own| :: FirstAt(own, list, i)) <==> own <= list
  {
    if own <= list {
      forall i | 0 <= i < |own| ensures FirstAt(own, list, i) {
        FirstOfAt(list, own[i], i);
      }
    }
    if forall i | 0 <= i < |own| :: FirstAt(own, list, i) {
      forall i | 0 <= i < |own| ensures i < |list| && list[i] == own[i] {
        assert FirstAt(own, list, i);
        FirstOfFacts(list, own[i]);
      }
      if own != [] {
        assert FirstAt(own, list, |own| - 1);
      }
    }
  }

  // ---------------------------------------------------------------------------
  // A run that misses it
  // ---------------------------------------------------------------------------

  /** Two blocks on one parent that share a Starknet header and hold different transactions. */
  function ForkedTree(header: Header, tx: Transaction, tx': Transaction): Chain {
    map[10 := SubstrateHeader(0, 0, []),
        11 := SubstrateHeader(1, 10, [MadaraLog(Block(header, [tx]))]),
        12 := SubstrateHeader(1, 10, [MadaraLog(Block(header, [tx']))])]
  }

  function ForkedEnv(header: Header, tx: Transaction, tx': Transaction, chainId: Felt): Env {
    Env(ForkedTree(header, tx, tx'), Some([12, 11]), {}, true, Some(chainId), true, true)
  }

  function ForkEntry(b: Hash, header: Header, tx: Transaction, chainId: Felt): Entry {
    Entry(b, Some(Commitment(HeaderHash(header), [ComputeHash(tx, chainId, false)])))
  }

  lemma {:induction false} ForkIndexes(header: Header, tx: Transaction, tx': Transaction, chainId: Felt, b: Hash)
    requires b == 11 || b == 12
    ensures var env := ForkedEnv(header, tx, tx', chainId);
            IndexEntry(env, b, env.chain[b]) == Index(ForkEntry(b, header, if b == 11 then tx else tx', chainId))
  {
    OneLog(Block(header, [if b == 11 then tx else tx']));
    var block := Block(header, [if b == 11 then tx else tx']);
    assert TransactionHashes(block, chainId) == [ComputeHash(block.transactions[0], chainId, false)];
  }

  /** The database after the first block, after its parent too, and after all three. */
  function ForkedFirst(header: Header, tx: Transaction, chainId: Felt): Db {
    Record(EMPTY_DB, ForkEntry(11, header, tx, chainId), true).(tips := [12, 10])
  }

  function ForkedSecond(header: Header, tx: Transaction, chainId: Felt): Db {
    Record(ForkedFirst(header, tx, chainId), Entry(10, None), true).(tips := [12])
  }

  function ForkedDb(header: Header, tx: Transaction, tx': Transaction, chainId: Felt): Db {
    Record(ForkedSecond(header, tx, chainId), ForkEntry(12, header, tx', chainId), true).(tips := [10])
  }

  lemma {:induction false} RunThree(db: Db, env: Env, syncFrom: nat, cacheMore: bool)
    ensures var first := SyncOne(db, env, syncFrom, cacheMore).0;
            var second := SyncOne(first, env, syncFrom, cacheMore).0;
            Run(db, [env, env, env], syncFrom, cacheMore) == SyncOne(second, env, syncFrom, cacheMore).0
  {
    var envs := [env, env, env];
    assert envs[..2] == [env, env] && envs[..2][..1] == [env] && envs[..2][..1][..0] == [];
    assert Run(db, envs[..2][..1][..0], syncFrom, cacheMore) == db;
    assert Run(db, envs[..2][..1], syncFrom, cacheMore) == SyncOne(db, env, syncFrom, cacheMore).0;
  }

  lemma {:induction false} ForkedSteps(header: Header, tx: Transaction, tx': Transaction, chainId: Felt)
    ensures var env := ForkedEnv(header, tx, tx', chainId);
            && SyncOne(EMPTY_DB, env, 0, true).0 == ForkedFirst(header, tx, chainId)
            && SyncOne(ForkedFirst(header, tx, chainId), env, 0, true).0 == ForkedSecond(header, tx, chainId)
  {
    var env := ForkedEnv(header, tx, tx', chainId);
    ForkIndexes(header, tx, tx', chainId, 11);
    assert SearchTips({}, env, [12, 11], 0) == Operate(11, env.chain[11], [12]);
    assert SearchTips({11}, env, [12, 10], 0) == Operate(10, env.chain[10], [12]);
  }

  lemma {:induction false} ForkedLastStep(header: Header, tx: Transaction, tx': Transaction, chainId: Felt)
    ensures var env := ForkedEnv(header, tx, tx', chainId);
            SyncOne(ForkedSecond(header, tx, chainId), env, 0, true).0 == ForkedDb(header, tx, tx', chainId)
  {
    var env := ForkedEnv(header, tx, tx', chainId);
    ForkIndexes(header, tx, tx', chainId, 12);
    assert SearchTips({11, 10}, env, [12], 0) == Operate(12, env.chain[12], []);
  }

  lemma {:induction false} ForkedRun(header: Header, tx: Transaction, tx': Transaction, chainId: Felt)
    ensures var env := ForkedEnv(header, tx, tx', chainId);
            Run(EMPTY_DB, [env, env, env], 0, true) == ForkedDb(header, tx, tx', chainId)
  {
    RunThree(EMPTY_DB, ForkedEnv(header, tx, tx', chainId), 0, true);
    ForkedSteps(header, tx, tx', chainId);
    ForkedLastStep(header, tx, tx', chainId);
  }

  lemma {:induction false} ForkedEnvValid(header: Header, tx: Transaction, tx': Transaction, chainId: Felt)
    ensures var env := ForkedEnv(header, tx, tx', chainId);
            FaultFree(env) && GrowingTree([env, env, env])
  {
    var env := ForkedEnv(header, tx, tx', chainId);
    OneLog(Block(header, [tx]));
    OneLog(Block(header, [tx']));
    assert !IsLeaf(env.chain, 10) by {
      assert env.chain[11].parent == 10;
    }
    assert IsLeaf(env.chain, 11) && IsLeaf(env.chain, 12);
  }

  /** The Starknet hash does not name the transactions.  For any header and any two transactions with
      different hashes there is a tree and a run without a fault that indexes all of it, after which
      the transaction indexed first is not found. */
  lemma {:induction false} SharedHeaderMisleadsCache(header: Header, tx: Transaction, tx': Transaction, chainId: Felt)
    requires ComputeHash(tx, chainId, false) != ComputeHash(tx', chainId, false)
    ensures var env := ForkedEnv(header, tx, tx', chainId);
            var t := ComputeHash(tx, chainId, false);
            var db := Run(EMPTY_DB, [env, env, env], 0, true);
            && FaultFree(env) && GrowingTree([env, env, env])
            && Complete(db, env.chain, 0) && Get(db.txMapping, t) == Some(11)
            && FindRecomputed(Block(header, [tx]), chainId, t) == Some(tx)
            && GetTransactionByHash(db, env.chain, chainId, t) == TxnHashNotFound
    ensures header.number == 1 ==> NumbersAligned(ForkedTree(header, tx, tx'))
  {
    ForkedAligned(header, tx, tx');
    ForkedRun(header, tx, tx', chainId);
    ForkedEnvValid(header, tx, tx', chainId);
    ForkedLookup(header, tx, tx', chainId);
  }

  lemma {:induction false} ForkedAligned(header: Header, tx: Transaction, tx': Transaction)
    ensures header.number == 1 ==> NumbersAligned(ForkedTree(header, tx, tx'))
  {
    OneLog(Block(header, [tx]));
    OneLog(Block(header, [tx']));
  }

  lemma {:induction false} ForkedLookup(header: Header, tx: Transaction, tx': Transaction, chainId: Felt)
    requires ComputeHash(tx, chainId, false) != ComputeHash(tx', chainId, false)
    ensures var db, chain := ForkedDb(header, tx, tx', chainId), ForkedTree(header, tx, tx');
            var t := ComputeHash(tx, chainId, false);
            && Complete(db, chain, 0) && Get(db.txMapping, t) == Some(11)
            && FindRecomputed(Block(header, [tx]), chainId, t) == Some(tx)
            && GetTransactionByHash(db, chain, chainId, t) == TxnHashNotFound
  {
    var t, t' := ComputeHash(tx, chainId, false), ComputeHash(tx', chainId, false);
    var block := Block(header, [tx]);
    OneLog(block);
    FirstOfAt(TransactionHashes(block, chainId), t, 0);
    FirstOfAt([t'], t, 1);
  }
}
