/** What the index holds after any run of the mapping sync, and the lookups that rely on it. */
module MappingIndex {
  import opened Felts
  import opened Blocks
  import opened MappingSync

  // ---------------------------------------------------------------------------
  // The index is a function of the order in which blocks were recorded
  // ---------------------------------------------------------------------------

  /** The entry a call records, if any. */
  function Recorded(db: Db, env: Env, syncFrom: nat): seq<Entry> {
    match SearchTips(db.synced, env, StartingTips(db, env), syncFrom)
    case Operate(tip, header, _) =>
      var indexing := IndexEntry(env, tip, header);
      if indexing.Index? && env.mappingCommits then [indexing.entry] else []
    case _ => []
  }

  function History(envs: seq<Env>, syncFrom: nat, cacheMore: bool): seq<Entry> {
    if envs == [] then []
    else
      var init := envs[..|envs| - 1];
      History(init, syncFrom, cacheMore)
      + Recorded(Run(EMPTY_DB, init, syncFrom, cacheMore), envs[|envs| - 1], syncFrom)
  }

  predicate EntryWraps(e: Entry, h: Felt) {
    e.wraps.Some? && e.wraps.value.starknetHash == h
  }

  predicate EntryContains(e: Entry, t: Felt) {
    e.wraps.Some? && t in e.wraps.value.txHashes
  }

  /** The recorded blocks that wrap the Starknet block `h`, in recording order. */
  function Wrappers(history: seq<Entry>, h: Felt): seq<Hash> {
    if history == [] then []
    else
      var init, e := Wrappers(history[..|history| - 1], h), history[|history| - 1];
      if EntryWraps(e, h) then init + [e.block] else init
  }

  /** The last recorded block that contains the transaction. */
  function LastContaining(history: seq<Entry>, t: Felt): Option<Hash> {
    if history == [] then None
    else
      var e := history[|history| - 1];
      if EntryContains(e, t) then Some(e.block)
      else LastContaining(history[..|history| - 1], t)
  }

  /** The transaction hashes of the last recorded block that wraps `h`. */
  function LastHashes(history: seq<Entry>, h: Felt): Option<seq<Felt>> {
    if history == [] then None
    else
      var e := history[|history| - 1];
      if EntryWraps(e, h) then Some(e.wraps.value.txHashes)
      else LastHashes(history[..|history| - 1], h)
  }

  function Get<K, V>(m: map<K, V>, k: K): Option<V> {
    if k in m then Some(m[k]) else None
  }

  ghost predicate DistinctBlocks(history: seq<Entry>) {
    forall i, j | 0 <= i < j < |history| :: history[i].block != history[j].block
  }

  ghost predicate Refines(db: Db, history: seq<Entry>, cacheMore: bool) {
    && DistinctBlocks(history)
    && (forall b :: b in db.synced <==> exists i | 0 <= i < |history| :: history[i].block == b)
    && (forall h :: Lookup(db.blockMapping, h) == Wrappers(history, h))
    && (forall t :: Get(db.txMapping, t) == LastContaining(history, t))
    && (forall h :: Get(db.txCache, h) == if cacheMore then LastHashes(history, h) else None)
  }

  lemma {:induction false} RecordRefines(db: Db, history: seq<Entry>, e: Entry, cacheMore: bool)
    requires Refines(db, history, cacheMore) && e.block !in db.synced
    ensures Refines(Record(db, e, cacheMore), history + [e], cacheMore)
  {
    var db', history' := Record(db, e, cacheMore), history + [e];
    assert history'[..|history'| - 1] == history && history'[|history|] == e;
    forall b ensures b in db'.synced <==> exists i | 0 <= i < |history'| :: history'[i].block == b {
      if b == e.block {
        assert history'[|history|].block == b;
      } else if b in db.synced {
        var i :| 0 <= i < |history| && history[i].block == b;
        assert history'[i].block == b;
      }
    }
    forall h ensures Lookup(db'.blockMapping, h) == Wrappers(history', h) {
      assert Lookup(db.blockMapping, h) == Wrappers(history, h);
    }
    forall t ensures Get(db'.txMapping, t) == LastContaining(history', t) {
      assert Get(db.txMapping, t) == LastContaining(history, t);
    }
    forall h ensures Get(db'.txCache, h) == if cacheMore then LastHashes(history', h) else None {
      assert Get(db.txCache, h) == if cacheMore then LastHashes(history, h) else None;
    }
  }

  lemma {:induction false} StepRecords(db: Db, env: Env, syncFrom: nat, cacheMore: bool)
    ensures var db' := SyncOne(db, env, syncFrom, cacheMore).0;
            var recorded := Recorded(db, env, syncFrom);
            || (recorded == [] && db'.(tips := []) == db.(tips := []))
            || (|recorded| == 1 && recorded[0].block !in db.synced
                && db'.(tips := []) == Record(db, recorded[0], cacheMore).(tips := []))
  {
    SearchFacts(db.synced, env, StartingTips(db, env), syncFrom);
  }

  /** On every run whatsoever, with or without faults, the index is exactly what the recorded
      blocks determine. */
  lemma {:induction false} RunRefines(envs: seq<Env>, syncFrom: nat, cacheMore: bool)
    ensures Refines(Run(EMPTY_DB, envs, syncFrom, cacheMore), History(envs, syncFrom, cacheMore), cacheMore)
    decreases |envs|
  {
    if envs != [] {
      var init, env := envs[..|envs| - 1], envs[|envs| - 1];
      var db, history := Run(EMPTY_DB, init, syncFrom, cacheMore), History(init, syncFrom, cacheMore);
      RunRefines(init, syncFrom, cacheMore);
      StepRecords(db, env, syncFrom, cacheMore);
      var recorded := Recorded(db, env, syncFrom);
      if recorded == [] {
        assert history + recorded == history;
      } else {
        RecordRefines(db, history, recorded[0], cacheMore);
        assert recorded == [recorded[0]];
      }
    }
  }

  // ---------------------------------------------------------------------------
  // The index agrees with a scan of the tree
  // ---------------------------------------------------------------------------

  ghost predicate Wraps(chain: Chain, b: Hash, h: Felt) {
    b in chain && var found := FindStarknetBlock(chain[b].logs); found.Found? && HeaderHash(found.block.header) == h
  }

  /** The transactions the sync indexes for a block; it indexes none for the genesis block. */
  ghost function IndexedHashes(chain: Chain, chainId: Felt, b: Hash): seq<Felt>
    requires b in chain
  {
    var found := FindStarknetBlock(chain[b].logs);
    if found.Found? && chain[b].number > 0 then TransactionHashes(found.block, chainId) else []
  }

  ghost predicate Contains(chain: Chain, chainId: Felt, b: Hash, t: Felt) {
    b in chain && t in IndexedHashes(chain, chainId, b)
  }

  ghost predicate Sound(e: Entry, chain: Chain, chainId: Felt) {
    && e.block in chain
    && (e.wraps.Some? ==>
          && Wraps(chain, e.block, e.wraps.value.starknetHash)
          && e.wraps.value.txHashes == IndexedHashes(chain, chainId, e.block))
  }

  ghost predicate Faithful(e: Entry, chain: Chain) {
    e.block in chain && (FindStarknetBlock(chain[e.block].logs).Found? ==> e.wraps.Some?)
  }

  /** The call indexes a block that wraps a Starknet block, and the second read of its header
      fails: the block is recorded as one that wraps none. */
  ghost predicate Blind(db: Db, env: Env, syncFrom: nat) {
    var search := SearchTips(db.synced, env, StartingTips(db, env), syncFrom);
    && search.Operate? && search.header.number > 0 && FindStarknetBlock(search.header.logs).Found?
    && !env.storageReadable && env.mappingCommits
  }

  lemma {:induction false} RecordedIsSound(db: Db, env: Env, syncFrom: nat, chainId: Felt)
    requires env.chainId.None? || env.chainId == Some(chainId)
    ensures forall e | e in Recorded(db, env, syncFrom) :: Sound(e, env.chain, chainId)
    ensures (forall e | e in Recorded(db, env, syncFrom) :: Faithful(e, env.chain)) <==> !Blind(db, env, syncFrom)
  {
    SearchFacts(db.synced, env, StartingTips(db, env), syncFrom);
    if Blind(db, env, syncFrom) {
      var e := Recorded(db, env, syncFrom)[0];
      assert e in Recorded(db, env, syncFrom) && !Faithful(e, env.chain);
    }
  }

  ghost predicate SameChainId(envs: seq<Env>, chainId: Felt) {
    forall i | 0 <= i < |envs| :: envs[i].chainId.None? || envs[i].chainId == Some(chainId)
  }

  /** Some call of the run was blind. */
  ghost predicate EverBlind(envs: seq<Env>, syncFrom: nat, cacheMore: bool) {
    envs != [] && var init := envs[..|envs| - 1];
                  || EverBlind(init, syncFrom, cacheMore)
                  || Blind(Run(EMPTY_DB, init, syncFrom, cacheMore), envs[|envs| - 1], syncFrom)
  }

  ghost predicate AllFaithful(history: seq<Entry>, chain: Chain) {
    forall e | e in history :: Faithful(e, chain)
  }

  lemma {:induction false} HistoryIsSound(envs: seq<Env>, chain: Chain, syncFrom: nat, cacheMore: bool, chainId: Felt)
    requires SameChainId(envs, chainId)
    requires forall i | 0 <= i < |envs| :: Grows(envs[i].chain, chain)
    ensures forall e | e in History(envs, syncFrom, cacheMore) :: Sound(e, chain, chainId)
    ensures AllFaithful(History(envs, syncFrom, cacheMore), chain) <==> !EverBlind(envs, syncFrom, cacheMore)
    decreases |envs|
  {
    if envs != [] {
      var init, env := envs[..|envs| - 1], envs[|envs| - 1];
      HistoryIsSound(init, chain, syncFrom, cacheMore, chainId);
      var db := Run(EMPTY_DB, init, syncFrom, cacheMore);
      RecordedIsSound(db, env, syncFrom, chainId);
      assert forall e | Sound(e, env.chain, chainId) ::
               Sound(e, chain, chainId) && (Faithful(e, chain) <==> Faithful(e, env.chain));
      FaithfulAppend(History(init, syncFrom, cacheMore), Recorded(db, env, syncFrom), chain);
    }
  }

  lemma {:induction false} FaithfulAppend(history: seq<Entry>, more: seq<Entry>, chain: Chain)
    ensures AllFaithful(history + more, chain)
            <==> AllFaithful(history, chain) && forall e | e in more :: Faithful(e, chain)
  {
    if AllFaithful(history + more, chain) {
      assert forall e | e in history :: e in history + more;
      assert forall e | e in more :: e in history + more;
    }
  }

  lemma {:induction false} WrapperEntry(history: seq<Entry>, h: Felt, b: Hash) returns (e: Entry)
    requires b in Wrappers(history, h)
    ensures e in history && e.block == b && EntryWraps(e, h)
    decreases |history|
  {
    var n := |history| - 1;
    if b in Wrappers(history[..n], h) {
      e := WrapperEntry(history[..n], h, b);
    } else {
      e := history[n];
    }
  }

  lemma {:induction false} WrappersFacts(history: seq<Entry>, h: Felt)
    requires DistinctBlocks(history)
    ensures var list := Wrappers(history, h);
            && (forall i, j | 0 <= i < j < |list| :: list[i] != list[j])
            && (forall e | e in history && EntryWraps(e, h) :: e.block in list)
    decreases |history|
  {
    if history != [] {
      var n := |history| - 1;
      var init, last := history[..n], history[n];
      WrappersFacts(init, h);
      if last.block in Wrappers(init, h) {
        var e := WrapperEntry(init, h, last.block);
        assert false;
      }
      var list := Wrappers(init, h);
      assert forall k | 0 <= k < |list| :: list[k] in list;
      assert Wrappers(history, h) == if EntryWraps(last, h) then list + [last.block] else list;
      forall e | e in history && EntryWraps(e, h) ensures e.block in Wrappers(history, h) {
        if e in init {
          assert e.block in list;
        } else {
          assert e == last;
        }
      }
    }
  }

  lemma {:induction false} LastContainingFacts(history: seq<Entry>, t: Felt)
    ensures match LastContaining(history, t)
            case Some(b) => exists e | e in history :: e.block == b && EntryContains(e, t)
            case None => forall e | e in history :: !EntryContains(e, t)
    decreases |history|
  {
    if history != [] {
      var n := |history| - 1;
      assert history == history[..n] + [history[n]];
      LastContainingFacts(history[..n], t);
    }
  }

  /** Every list is free of duplicates and every entry of the index points at an indexed block
      that really wraps the Starknet block, or contains the transaction. */
  ghost predicate IndexSound(db: Db, chain: Chain, chainId: Felt) {
    && (forall h :: var list := Lookup(db.blockMapping, h);
          && (forall i, j | 0 <= i < j < |list| :: list[i] != list[j])
          && (forall b | b in list :: b in db.synced && Wraps(chain, b, h)))
    && (forall t | t in db.txMapping :: db.txMapping[t] in db.synced && Contains(chain, chainId, db.txMapping[t], t))
  }

  /** Every indexed block is found again from its Starknet hash, and every transaction of an
      indexed block from its hash. */
  ghost predicate IndexComplete(db: Db, chain: Chain, chainId: Felt) {
    && (forall b, h | b in db.synced && Wraps(chain, b, h) :: b in Lookup(db.blockMapping, h))
    && (forall b, t | b in db.synced && Contains(chain, chainId, b, t) :: t in db.txMapping)
  }

  /** On every run over a growing tree, torn commits included, the index is sound, and it is complete
      if and only if no call was ever blind: a block that was recorded blindly is lost for good. */
  lemma {:induction false} IndexAgreesWithScan(envs: seq<Env>, chain: Chain, syncFrom: nat, cacheMore: bool,
                                               chainId: Felt)
    requires SameChainId(envs, chainId) && forall i | 0 <= i < |envs| :: Grows(envs[i].chain, chain)
    ensures IndexSound(Run(EMPTY_DB, envs, syncFrom, cacheMore), chain, chainId)
    ensures IndexComplete(Run(EMPTY_DB, envs, syncFrom, cacheMore), chain, chainId)
            <==> !EverBlind(envs, syncFrom, cacheMore)
  {
    var db, history := Run(EMPTY_DB, envs, syncFrom, cacheMore), History(envs, syncFrom, cacheMore);
    RunRefines(envs, syncFrom, cacheMore);
    HistoryIsSound(envs, chain, syncFrom, cacheMore, chainId);
    RefinedIndexIsSound(db, history, chain, cacheMore, chainId);
    if AllFaithful(history, chain) {
      RefinedIndexIsComplete(db, history, chain, cacheMore, chainId);
    } else {
      UnfaithfulIsMissing(db, history, chain, cacheMore, chainId);
    }
  }

  lemma {:induction false} OneEntryPerBlock(history: seq<Entry>, e: Entry, e': Entry)
    requires DistinctBlocks(history) && e in history && e' in history && e.block == e'.block
    ensures e == e'
  {
    var i :| 0 <= i < |history| && history[i] == e;
    var j :| 0 <= j < |history| && history[j] == e';
    assert !(i < j) && !(j < i);
  }

  lemma {:induction false} UnfaithfulIsMissing(db: Db, history: seq<Entry>, chain: Chain, cacheMore: bool,
                                               chainId: Felt)
    requires Refines(db, history, cacheMore) && forall e | e in history :: Sound(e, chain, chainId)
    requires !AllFaithful(history, chain)
    ensures !IndexComplete(db, chain, chainId)
  {
    var e :| e in history && !Faithful(e, chain);
    var b, h := e.block, HeaderHash(FindStarknetBlock(chain[e.block].logs).block.header);
    assert b in db.synced && Wraps(chain, b, h);
    assert Lookup(db.blockMapping, h) == Wrappers(history, h);
    if b in Wrappers(history, h) {
      var e' := WrapperEntry(history, h, b);
      OneEntryPerBlock(history, e, e');
      assert false;
    }
  }

  /** A tree of two blocks, the upper one wrapping the given Starknet block, whose header cannot be
      read a second time. */
  function BlindEnv(block: Block, chainId: Felt): Env {
    var chain := map[10 := SubstrateHeader(0, 0, []), 11 := SubstrateHeader(1, 10, [MadaraLog(block)])];
    Env(chain, Some([11]), {}, false, Some(chainId), true, true)
  }

  /** For every Starknet block there is a run that records the Substrate block wrapping it as one that
      wraps none, so that it is never found again. */
  lemma {:induction false} BlindRunIsIncomplete(block: Block, chainId: Felt)
    ensures var env := BlindEnv(block, chainId);
            && ValidEnv(env) && EverBlind([env], 0, false)
            && !IndexComplete(Run(EMPTY_DB, [env], 0, false), env.chain, chainId)
  {
    var env := BlindEnv(block, chainId);
    OneLog(block);
    assert !IsLeaf(env.chain, 10) && IsLeaf(env.chain, 11) by {
      assert env.chain[11].parent == 10;
    }
    assert [env][..0] == [];
    assert SearchTips({}, env, [11], 0) == Operate(11, env.chain[11], []);
    assert Blind(EMPTY_DB, env, 0);
    IndexAgreesWithScan([env], env.chain, 0, false, chainId);
  }

  ghost predicate Findable(db: Db, chain: Chain, chainId: Felt, b: Hash) {
    && (forall h | Wraps(chain, b, h) :: b in Lookup(db.blockMapping, h))
    && (forall t | Contains(chain, chainId, b, t) :: t in db.txMapping)
  }

  /** On every run over a growing tree that was never torn and never blind: when two calls in a row
      find nothing to do, every block of the tree at or above the start is found from its Starknet
      hash, and every transaction in it from its own. */
  lemma {:induction false} IdleRunFindsWholeTree(envs: seq<Env>, syncFrom: nat, cacheMore: bool, chainId: Felt)
    requires |envs| >= 2 && GrowingTree(envs) && SameChainId(envs, chainId)
    requires NeverTorn(envs, syncFrom, cacheMore) && !EverBlind(envs, syncFrom, cacheMore)
    requires OutcomeAt(envs, |envs| - 2, syncFrom, cacheMore) == Idle
    requires OutcomeAt(envs, |envs| - 1, syncFrom, cacheMore) == Idle
    ensures var db, chain := Run(EMPTY_DB, envs, syncFrom, cacheMore), envs[|envs| - 1].chain;
            forall b | b in chain && chain[b].number >= syncFrom :: Findable(db, chain, chainId, b)
  {
    RunIdleTwiceIsComplete(envs, syncFrom, cacheMore);
    IndexAgreesWithScan(envs, envs[|envs| - 1].chain, syncFrom, cacheMore, chainId);
  }

  lemma {:induction false} RefinedIndexIsSound(db: Db, history: seq<Entry>, chain: Chain, cacheMore: bool,
                                               chainId: Felt)
    requires Refines(db, history, cacheMore) && forall e | e in history :: Sound(e, chain, chainId)
    ensures IndexSound(db, chain, chainId)
  {
    forall h ensures var list := Lookup(db.blockMapping, h);
                     && (forall i, j | 0 <= i < j < |list| :: list[i] != list[j])
                     && (forall b | b in list :: b in db.synced && Wraps(chain, b, h))
    {
      WrappersFacts(history, h);
      assert Lookup(db.blockMapping, h) == Wrappers(history, h);
      forall b | b in Wrappers(history, h) ensures b in db.synced && Wraps(chain, b, h) {
        var e := WrapperEntry(history, h, b);
        assert Sound(e, chain, chainId);
      }
    }
    forall t | t in db.txMapping
      ensures db.txMapping[t] in db.synced && Contains(chain, chainId, db.txMapping[t], t)
    {
      LastContainingFacts(history, t);
      assert Get(db.txMapping, t) == LastContaining(history, t) == Some(db.txMapping[t]);
      var e :| e in history && e.block == db.txMapping[t] && EntryContains(e, t);
      assert Sound(e, chain, chainId);
    }
  }

  lemma {:induction false} RefinedIndexIsComplete(db: Db, history: seq<Entry>, chain: Chain, cacheMore: bool,
                                                  chainId: Felt)
    requires Refines(db, history, cacheMore)
    requires forall e | e in history :: Sound(e, chain, chainId) && Faithful(e, chain)
    ensures IndexComplete(db, chain, chainId)
  {
    forall b, h | b in db.synced && Wraps(chain, b, h) ensures b in Lookup(db.blockMapping, h) {
      var i :| 0 <= i < |history| && history[i].block == b;
      assert history[i] in history && EntryWraps(history[i], h);
      WrappersFacts(history, h);
      assert Lookup(db.blockMapping, h) == Wrappers(history, h);
    }
    forall b, t | b in db.synced && Contains(chain, chainId, b, t) ensures t in db.txMapping {
      var i :| 0 <= i < |history| && history[i].block == b;
      assert history[i] in history && EntryContains(history[i], t);
      LastContainingFacts(history, t);
      assert Get(db.txMapping, t) == LastContaining(history, t);
    }
  }

  // ---------------------------------------------------------------------------
  // Lookup of the canonical block
  // ---------------------------------------------------------------------------

  /** The client's view of the best chain: the hash at each height. */
  type BestChain = map<nat, Hash>

  predicate IsCanon(chain: Chain, best: BestChain, target: Hash) {
    target in chain && chain[target].number in best && best[chain[target].number] == target
  }

  /** Heights inside and outside agree, as the pallet guarantees. */
  ghost predicate NumbersAligned(chain: Chain) {
    forall b | b in chain && FindStarknetBlock(chain[b].logs).Found? ::
      FindStarknetBlock(chain[b].logs).block.header.number == chain[b].number
  }

  /** Finds the canonical block wrapping a Starknet block in place of a scan: it succeeds exactly
      when some indexed canonical block does, and with aligned heights there is only one. */
  method LoadHash(db: Db, chain: Chain, best: BestChain, h: Felt, ghost chainId: Felt) returns (r: Option<Hash>)
    requires IndexSound(db, chain, chainId) && IndexComplete(db, chain, chainId)
    ensures r.Some? ==> r.value in db.synced && Wraps(chain, r.value, h) && IsCanon(chain, best, r.value)
    ensures r.None? ==> forall b | b in db.synced && IsCanon(chain, best, b) :: !Wraps(chain, b, h)
    ensures NumbersAligned(chain) && r.Some? ==>
              forall b | Wraps(chain, b, h) && IsCanon(chain, best, b) :: b == r.value
  {
    if h in db.blockMapping {
      var hashes := db.blockMapping[h];
      assert hashes == Lookup(db.blockMapping, h);
      for i := 0 to |hashes|
        invariant forall k | 0 <= k < i :: !IsCanon(chain, best, hashes[k])
      {
        if IsCanon(chain, best, hashes[i]) {
          assert hashes[i] in Lookup(db.blockMapping, h);
          forall b | NumbersAligned(chain) && Wraps(chain, b, h) && IsCanon(chain, best, b) ensures b == hashes[i] {
            HeaderHashCommits(FindStarknetBlock(chain[b].logs).block.header,
                              FindStarknetBlock(chain[hashes[i]].logs).block.header);
          }
          return Some(hashes[i]);
        }
      }
    }
    assert forall b | b in Lookup(db.blockMapping, h) :: !IsCanon(chain, best, b);
    r := None;
  }
}
