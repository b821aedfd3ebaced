/** The Madara database and the loops of the mapping sync that write it. */
module MappingDatabase {
  import opened Felts
  import opened Blocks
  import opened MappingSync

  class Database {
    var synced: set<Hash>
    var blockMapping: map<Felt, seq<Hash>>
    var txMapping: map<Felt, Hash>
    var txCache: map<Felt, seq<Felt>>
    var tips: seq<Hash>
    const cacheMore: bool

    constructor (cacheMore: bool)
      ensures Snapshot() == Db({}, map[], map[], map[], []) && this.cacheMore == cacheMore
    {
      this.cacheMore := cacheMore;
      synced, blockMapping, txMapping, txCache, tips := {}, map[], map[], map[], [];
    }

    ghost function Snapshot(): Db
      reads this
    {
      Db(synced, blockMapping, txMapping, txCache, tips)
    }

    method WriteNone(block: Hash, commits: bool) returns (ok: bool)
      modifies this
      ensures ok == commits
      ensures Snapshot() == if ok then Record(old(Snapshot()), Entry(block, None), cacheMore) else old(Snapshot())
    {
      if commits {
        synced := synced + {block};
      }
      return commits;
    }

    /** All columns change in one transaction, or none does. */
    method WriteHashes(block: Hash, c: Commitment, commits: bool) returns (ok: bool)
      modifies this
      ensures ok == commits
      ensures Snapshot() == if ok then Record(old(Snapshot()), Entry(block, Some(c)), cacheMore) else old(Snapshot())
    {
      var hashes := [block];
      if c.starknetHash in blockMapping {
        hashes := blockMapping[c.starknetHash] + [block];
      }
      var txs := txMapping;
      for i := 0 to |c.txHashes|
        invariant txs == txMapping + map t | t in c.txHashes[..i] :: block
      {
        assert c.txHashes[..i + 1] == c.txHashes[..i] + [c.txHashes[i]];
        txs := txs[c.txHashes[i] := block];
      }
      assert c.txHashes[..|c.txHashes|] == c.txHashes;
      assert hashes == Lookup(blockMapping, c.starknetHash) + [block];
      if commits {
        blockMapping := blockMapping[c.starknetHash := hashes];
        synced := synced + {block};
        txMapping := txs;
        if cacheMore {
          txCache := txCache[c.starknetHash := c.txHashes];
        }
      }
      return commits;
    }

    method WriteEntry(e: Entry, commits: bool) returns (ok: bool)
      modifies this
      ensures ok == commits
      ensures Snapshot() == if ok then Record(old(Snapshot()), e, cacheMore) else old(Snapshot())
    {
      match e.wraps {
        case None => ok := WriteNone(e.block, commits);
        case Some(c) => ok := WriteHashes(e.block, c, commits);
      }
    }

    method SyncOneBlock(env: Env, syncFrom: nat) returns (r: Outcome)
      modifies this
      ensures (Snapshot(), r) == SyncOne(old(Snapshot()), env, syncFrom, cacheMore)
    {
      var current := tips;
      if current == [] {
        if env.leaves.None? { return Failed(LeavesUnavailable); }
        if env.leaves.value == [] { return Idle; }
        current := current + env.leaves.value;
      }
      assert current == StartingTips(Snapshot(), env);
      var operating := None;
      while current != []
        invariant SearchTips(synced, env, current, syncFrom) ==
                  SearchTips(synced, env, StartingTips(Snapshot(), env), syncFrom)
        invariant operating.None?
      {
        var tip := current[|current| - 1];
        current := current[..|current| - 1];
        match FetchHeader(synced, env, tip, syncFrom) {
          case Fetched(header) =>
            operating := Some((tip, header));
            break;
          case Skip =>
          case Missing => return Failed(HeaderNotFound);
        }
      }
      if operating.None? {
        if !env.tipsCommit { return Failed(DbCommit); }
        tips := current;
        return Idle;
      }
      var (tip, header) := operating.value;
      match IndexEntry(env, tip, header) {
        case Refuse(error) => return Failed(error);
        case Index(entry) =>
          var ok := WriteEntry(entry, env.mappingCommits);
          if !ok { return Failed(DbCommit); }
          ghost var rest := current;
          if header.number != 0 {
            current := current + [header.parent];
          }
          assert current == rest + ParentTip(header);
          if !env.tipsCommit { return Failed(DbCommit); }
          tips := current;
          return Synced;
      }
    }

    method SyncBlocks(envs: seq<Env>, syncFrom: nat) returns (r: Outcome)
      modifies this
      ensures (Snapshot(), r) == SyncMany(old(Snapshot()), envs, syncFrom, cacheMore)
    {
      var syncedAny := false;
      for i := 0 to |envs|
        invariant SyncMany(old(Snapshot()), envs, syncFrom, cacheMore) ==
                  if syncedAny then (Snapshot(), Synced) else SyncMany(Snapshot(), envs[i..], syncFrom, cacheMore)
      {
        assert envs[i..][1..] == envs[i + 1..];
        if !syncedAny {
          r := SyncOneBlock(envs[i], syncFrom);
          if r.Failed? { return; }
          syncedAny := r == Synced;
        }
      }
      r := if syncedAny then Synced else Idle;
    }

    /** The worker polls again at once as long as the last batch indexed something.  On a tree
        that stands still, and without faults, this ends with an empty stack, and every block is
        indexed if and only if every leaf is.  With two or more attempts per batch they all are; with
        none nothing happens. */
    method PollUntilIdle(env: Env, limit: nat, syncFrom: nat)
      requires FaultFree(env) && Closed(Snapshot(), env.chain, syncFrom)
      modifies this
      ensures Closed(Snapshot(), env.chain, syncFrom)
      ensures limit == 0 ==> Snapshot() == old(Snapshot())
      ensures limit >= 1 ==>
                tips == [] && (Complete(Snapshot(), env.chain, syncFrom) <==> LeavesPassed(synced, env, syncFrom))
      ensures limit >= 2 ==> Complete(Snapshot(), env.chain, syncFrom)
    {
      var envs := seq(limit, _ => env);
      var haveNext := true;
      while haveNext
        invariant Closed(Snapshot(), env.chain, syncFrom)
        invariant limit == 0 ==> Snapshot() == old(Snapshot())
        invariant !haveNext && limit >= 1 ==>
                    tips == [] && (Complete(Snapshot(), env.chain, syncFrom) <==> LeavesPassed(synced, env, syncFrom))
        invariant !haveNext && limit >= 2 ==> Complete(Snapshot(), env.chain, syncFrom)
        decreases haveNext, Unsynced(Snapshot(), env.chain, syncFrom)
      {
        if limit > 0 {
          BatchProgress(Snapshot(), env, envs, syncFrom, cacheMore);
        }
        var r := SyncBlocks(envs, syncFrom);
        haveNext := r == Synced;
      }
    }
  }

  lemma {:induction false} BatchProgress(db: Db, env: Env, envs: seq<Env>, syncFrom: nat, cacheMore: bool)
    requires FaultFree(env) && Closed(db, env.chain, syncFrom)
    requires envs != [] && forall i | 0 <= i < |envs| :: envs[i] == env
    ensures var (db', outcome) := SyncMany(db, envs, syncFrom, cacheMore);
            && !outcome.Failed? && Closed(db', env.chain, syncFrom)
            && (outcome == Synced ==> Unsynced(db', env.chain, syncFrom) < Unsynced(db, env.chain, syncFrom))
            && (outcome == Idle ==>
                  && db'.tips == []
                  && (Complete(db', env.chain, syncFrom) <==> LeavesPassed(db'.synced, env, syncFrom))
                  && (|envs| >= 2 || db.tips == [] ==> Complete(db', env.chain, syncFrom)))
    decreases |envs|
  {
    FaultFreeSucceeds(db, env, syncFrom, cacheMore);
    var (db', outcome) := SyncOne(db, env, syncFrom, cacheMore);
    if outcome == Synced {
      TornCommitFails(db, env, syncFrom, cacheMore);
      StepKeepsClosed(db, env, syncFrom, cacheMore);
      SyncedShrinks(db, env, syncFrom, cacheMore);
    } else {
      StepKeepsIdle(db, env, syncFrom, cacheMore);
      IdleIsCompleteIffLeavesPassed(db, env, syncFrom, cacheMore);
      if db.tips == [] {
        IdleFromEmptyIsComplete(db, env, syncFrom, cacheMore);
      }
      if |envs| > 1 {
        BatchProgress(db', env, envs[1..], syncFrom, cacheMore);
      }
    }
  }
}
