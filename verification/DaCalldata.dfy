/** The layout of a state difference as data availability calldata. */
module DaCalldata {
  import opened Basics
  import opened Felts
  import opened Blocks
  import opened IndexMaps
  import opened StateDiffs

  // ---------------------------------------------------------------------------
  // The word in front of each contract
  // ---------------------------------------------------------------------------

  const CLASS_FLAG_TRUE: nat := 0x1_0000_0000_0000_0000_0000_0000_0000_0001
  const NONCE_BASE: nat := 0xFFFF_FFFF_FFFF_FFFF

  function DaWord(classFlag: bool, nonce: Option<Word>, changes: nat): Word {
    (if classFlag then CLASS_FLAG_TRUE else 0)
    + (if nonce.Some? then nonce.value + NONCE_BASE else 0)
    + changes
  }

  /** The layout the documentation gives: one flag bit, 64 bits of nonce, 64 bits of count. */
  function DocumentedWord(classFlag: bool, nonce: Option<Word>, changes: nat): Word {
    (if classFlag then 0x1_0000_0000_0000_0000_0000_0000_0000_0000 else 0)
    + (if nonce.Some? then nonce.value * 0x1_0000_0000_0000_0000 else 0)
    + changes
  }

  /** The word has the documented layout exactly when no class is flagged and the nonce is absent
      or one. */
  lemma {:induction false} WordIsDocumented(classFlag: bool, nonce: Option<Word>, changes: nat)
    ensures DaWord(classFlag, nonce, changes) == DocumentedWord(classFlag, nonce, changes)
            <==> !classFlag && (nonce.None? || nonce.value == 1)
  {
    if nonce.Some? {
      var n := nonce.value;
      assert n * 0x1_0000_0000_0000_0000 - (n + NONCE_BASE) == (n - 1) * NONCE_BASE;
    }
  }

  /** No other content, with a nonce below the bound and a 64-bit count, has the same word. */
  ghost predicate OnlyContent(classFlag: bool, nonce: Option<Word>, changes: nat, bound: nat) {
    forall flag: bool, n: Option<Word>, c: nat |
      (n.Some? ==> n.value < bound) && c <= NONCE_BASE && DaWord(flag, n, c) == DaWord(classFlag, nonce, changes) ::
      flag == classFlag && n == nonce && c == changes
  }

  /** For nonces of 64 bits, as documented: the word determines what it stands for exactly at the two
      ends of its range. */
  lemma {:induction false} WordDeterminesContent(classFlag: bool, nonce: Option<Word>, changes: nat)
    requires (nonce.Some? ==> nonce.value <= NONCE_BASE) && changes <= NONCE_BASE
    ensures OnlyContent(classFlag, nonce, changes, NONCE_BASE + 1)
            <==> (nonce.None? && changes < NONCE_BASE) || (nonce == Some(NONCE_BASE) && changes == NONCE_BASE)
  {
    var word := DaWord(classFlag, nonce, changes);
    if nonce.None? && changes == NONCE_BASE {
      assert DaWord(classFlag, Some(0), 0) == word;
    } else if nonce.Some? && nonce.value < NONCE_BASE && changes > 0 {
      assert DaWord(classFlag, Some(nonce.value + 1), changes - 1) == word;
    } else if nonce.Some? && nonce.value > 0 && changes < NONCE_BASE {
      assert DaWord(classFlag, Some(nonce.value - 1), changes + 1) == word;
    } else if nonce == Some(0) && changes == 0 {
      assert DaWord(classFlag, None, NONCE_BASE) == word;
    }
  }

  /** For nonces that are any field element, as the code takes them: a large nonce can also stand in
      for the class flag, so fewer words determine what they stand for. */
  lemma {:induction false} WordDeterminesFelts(classFlag: bool, nonce: Option<Word>, changes: nat)
    requires (nonce.Some? ==> nonce.value < PRIME) && changes <= NONCE_BASE
    ensures OnlyContent(classFlag, nonce, changes, PRIME)
            <==> || (!classFlag && nonce.None? && changes < NONCE_BASE)
                 || (classFlag && nonce == Some(PRIME - 1) && changes == NONCE_BASE)
  {
    var word := DaWord(classFlag, nonce, changes);
    if nonce.None? {
      if classFlag {
        assert DaWord(false, Some(CLASS_FLAG_TRUE + changes - NONCE_BASE), 0) == word;
      } else if changes == NONCE_BASE {
        assert DaWord(false, Some(0), 0) == word;
      }
    } else if nonce.value < PRIME - 1 && changes > 0 {
      assert DaWord(classFlag, Some(nonce.value + 1), changes - 1) == word;
    } else if nonce.value > 0 && changes < NONCE_BASE {
      assert DaWord(classFlag, Some(nonce.value - 1), changes + 1) == word;
    } else if nonce == Some(0) {
      assert DaWord(classFlag, None, NONCE_BASE) == word;
    } else if !classFlag {
      assert DaWord(true, Some(nonce.value - CLASS_FLAG_TRUE), changes) == word;
    }
  }

  // ---------------------------------------------------------------------------
  // The layout
  // ---------------------------------------------------------------------------

  /** What the calldata says about one contract. */
  datatype Entry = Entry(addr: Word, classHash: Option<Word>, nonce: Option<Word>, writes: Writes)

  function Flatten(m: IndexMap<Word>): seq<Word> {
    if m == [] then [] else Flatten(m[..|m| - 1]) + [m[|m| - 1].0, m[|m| - 1].1]
  }

  function Words(e: Entry): seq<Word> {
    [e.addr, DaWord(e.classHash.Some?, e.nonce, |e.writes|)]
    + (if e.classHash.Some? then [e.classHash.value] else [])
    + Flatten(e.writes)
  }

  function AllWords(es: seq<Entry>): seq<Word> {
    if es == [] then [] else AllWords(es[..|es| - 1]) + Words(es[|es| - 1])
  }

  /** The class hash given to an address; a deployment goes before a replacement. */
  function ClassOf(d: StateDiff, a: Word): Option<Word> {
    var deployed := Get(d.deployed, a);
    if deployed.Some? then deployed else Get(d.replaced, a)
  }

  /** The nonces left when those of the given contracts are taken out. */
  function Remaining(nonces: IndexMap<Word>, storage: IndexMap<Writes>): IndexMap<Word> {
    if storage == [] then nonces
    else SwapRemove(Remaining(nonces, storage[..|storage| - 1]), storage[|storage| - 1].0)
  }

  function StorageEntry(d: StateDiff, at: (Word, Writes)): Entry {
    Entry(at.0, ClassOf(d, at.0), Get(d.nonces, at.0), at.1)
  }

  function NonceEntry(d: StateDiff, at: (Word, Word)): Entry {
    Entry(at.0, ClassOf(d, at.0), Some(at.1), [])
  }

  function DeployedEntry(at: (Word, Word)): Entry {
    Entry(at.0, Some(at.1), None, [])
  }

  function StorageEntries(d: StateDiff): seq<Entry> {
    seq(|d.storage|, i requires 0 <= i < |d.storage| => StorageEntry(d, d.storage[i]))
  }

  function NonceEntries(d: StateDiff): seq<Entry> {
    var left := Remaining(d.nonces, d.storage);
    seq(|left|, i requires 0 <= i < |left| => NonceEntry(d, left[i]))
  }

  function DeployedEntries(d: StateDiff): seq<Entry> {
    seq(|d.deployed|, i requires 0 <= i < |d.deployed| => DeployedEntry(d.deployed[i]))
  }

  /** The entries of the calldata, in order. */
  function Entries(d: StateDiff): seq<Entry> {
    StorageEntries(d) + NonceEntries(d) + DeployedEntries(d)
  }

  lemma {:induction false} RemainingGet(nonces: IndexMap<Word>, storage: IndexMap<Writes>, a: Word)
    requires DistinctKeys(nonces)
    ensures DistinctKeys(Remaining(nonces, storage))
    ensures Get(Remaining(nonces, storage), a) == if a in Keys(storage) then None else Get(nonces, a)
    decreases |storage|
  {
    if storage != [] {
      var init, k := storage[..|storage| - 1], storage[|storage| - 1].0;
      RemainingGet(nonces, init, a);
      RemoveGet(Remaining(nonces, init), k, a);
      KeyIsGet(init, a);
      assert a in Keys(storage) <==> a in Keys(init) || a == k by {
        assert forall i | 0 <= i < |init| :: storage[i] == init[i];
        if a in Keys(init) {
          var i :| 0 <= i < |init| && init[i].0 == a;
          assert storage[i].0 == a;
        }
      }
    }
  }

  /** The entries of the first contracts with storage writes, each with the nonce that is left for
      it when those before it have taken theirs. */
  function Laid(d: StateDiff, n: nat): seq<Entry>
    requires n <= |d.storage|
  {
    if n == 0 then []
    else
      var (addr, writes) := d.storage[n - 1];
      var nonces := Remaining(d.nonces, d.storage[..n - 1]);
      Laid(d, n - 1) + [Entry(addr, ClassOf(d, addr), Get(nonces, addr), writes)]
  }

  /** Taking the nonces out on the way changes no entry. */
  lemma {:induction false} LaidIsStorageEntries(d: StateDiff, n: nat)
    requires Valid(d) && n <= |d.storage|
    ensures Laid(d, n) == StorageEntries(d)[..n]
    decreases n
  {
    if n > 0 {
      LaidIsStorageEntries(d, n - 1);
      RemainingGet(d.nonces, d.storage[..n - 1], d.storage[n - 1].0);
    }
  }

  // ---------------------------------------------------------------------------
  // The calldata
  // ---------------------------------------------------------------------------

  class Calldata {
    var words: seq<Word>

    constructor (header: seq<Word>)
      ensures words == header
    {
      words := header;
    }

    method Push(w: Word)
      modifies this
      ensures words == old(words) + [w]
    {
      words := words + [w];
    }

    method PushPairs(m: IndexMap<Word>)
      modifies this
      ensures words == old(words) + Flatten(m)
    {
      for i := 0 to |m|
        invariant words == old(words) + Flatten(m[..i])
      {
        assert m[..i + 1][..i] == m[..i];
        Push(m[i].0);
        Push(m[i].1);
      }
      assert m[..|m|] == m;
    }

    method PushEntry(e: Entry)
      modifies this
      ensures words == old(words) + Words(e)
    {
      Push(e.addr);
      Push(DaWord(e.classHash.Some?, e.nonce, |e.writes|));
      if e.classHash.Some? {
        Push(e.classHash.value);
      }
      PushPairs(e.writes);
    }

    /** The nonces are taken out of their map on the way; what is left is returned. */
    method PushStorage(d: StateDiff) returns (nonces: IndexMap<Word>)
      modifies this
      ensures nonces == Remaining(d.nonces, d.storage)
      ensures words == old(words) + AllWords(Laid(d, |d.storage|))
    {
      nonces := d.nonces;
      for i := 0 to |d.storage|
        invariant nonces == Remaining(d.nonces, d.storage[..i])
        invariant words == old(words) + AllWords(Laid(d, i))
      {
        assert d.storage[..i + 1][..i] == d.storage[..i];
        var (addr, writes) := d.storage[i];
        var nonce := Get(nonces, addr);
        nonces := SwapRemove(nonces, addr);
        var e := Entry(addr, ClassOf(d, addr), nonce, writes);
        PushEntry(e);
        AllWordsSnoc(old(words), Laid(d, i), e);
      }
      assert d.storage[..|d.storage|] == d.storage;
    }

    method PushNonces(d: StateDiff, nonces: IndexMap<Word>)
      requires nonces == Remaining(d.nonces, d.storage)
      modifies this
      ensures words == old(words) + AllWords(NonceEntries(d))
    {
      for i := 0 to |nonces|
        invariant words == old(words) + AllWords(NonceEntries(d)[..i])
      {
        PushEntry(NonceEntry(d, nonces[i]));
        AllWordsNext(old(words), NonceEntries(d), i);
      }
      assert NonceEntries(d)[..|nonces|] == NonceEntries(d);
    }

    method PushDeployed(d: StateDiff)
      modifies this
      ensures words == old(words) + AllWords(DeployedEntries(d))
    {
      for i := 0 to |d.deployed|
        invariant words == old(words) + AllWords(DeployedEntries(d)[..i])
      {
        PushEntry(DeployedEntry(d.deployed[i]));
        AllWordsNext(old(words), DeployedEntries(d), i);
      }
      assert DeployedEntries(d)[..|d.deployed|] == DeployedEntries(d);
    }
  }

  lemma {:induction false} AllWordsOne(es: seq<Entry>, e: Entry)
    ensures AllWords(es + [e]) == AllWords(es) + Words(e)
  {
    assert (es + [e])[..|es|] == es;
  }

  lemma {:induction false} AllWordsSnoc(before: seq<Word>, es: seq<Entry>, e: Entry)
    ensures before + AllWords(es) + Words(e) == before + AllWords(es + [e])
  {
    AllWordsOne(es, e);
    ConcatAssoc(before, AllWords(es), Words(e));
  }

  lemma {:induction false} AllWordsNext(before: seq<Word>, es: seq<Entry>, i: nat)
    requires i < |es|
    ensures before + AllWords(es[..i]) + Words(es[i]) == before + AllWords(es[..i + 1])
  {
    assert es[..i] + [es[i]] == es[..i + 1];
    AllWordsSnoc(before, es[..i], es[i]);
  }

  lemma {:induction false} AllWordsConcat(es: seq<Entry>, fs: seq<Entry>)
    ensures AllWords(es + fs) == AllWords(es) + AllWords(fs)
    decreases |fs|
  {
    if fs == [] {
      assert es + fs == es;
    } else {
      var init, last := fs[..|fs| - 1], fs[|fs| - 1];
      AllWordsConcat(es, init);
      assert es + fs == (es + init) + [last];
      AllWordsOne(es + init, last);
      ConcatAssoc(AllWords(es), AllWords(init), Words(last));
    }
  }

  lemma {:induction false} EntriesInParts(header: seq<Word>, d: StateDiff)
    requires Valid(d)
    ensures header + AllWords(Laid(d, |d.storage|)) + AllWords(NonceEntries(d)) + AllWords(DeployedEntries(d))
            == header + AllWords(Entries(d))
  {
    LaidIsStorageEntries(d, |d.storage|);
    assert StorageEntries(d)[..|d.storage|] == StorageEntries(d);
    AllWordsConcat(StorageEntries(d), NonceEntries(d));
    AllWordsConcat(StorageEntries(d) + NonceEntries(d), DeployedEntries(d));
    ConcatAssoc(header, AllWords(StorageEntries(d)), AllWords(NonceEntries(d)));
    ConcatAssoc(header, AllWords(StorageEntries(d) + NonceEntries(d)), AllWords(DeployedEntries(d)));
  }

  /** What is published of a block. */
  datatype BlockDaData = BlockDaData(
    previousStateRoot: Word, newStateRoot: Word, blockNumber: Word, blockHash: Word, configHash: Word,
    numAddrAccessed: nat, diff: StateDiff)

  function HeaderWords(data: BlockDaData): seq<Word> {
    [data.previousStateRoot, data.newStateRoot, data.blockNumber, data.blockHash, data.configHash, data.numAddrAccessed]
  }

  /** The words of a block: header, one entry per element of `Entries`, and the declared classes. */
  function CalldataOf(data: BlockDaData): seq<Word> {
    HeaderWords(data) + AllWords(Entries(data.diff)) + [|data.diff.declared|] + Flatten(data.diff.declared)
  }

  method BlockDataToCalldata(data: BlockDaData) returns (words: seq<Word>)
    requires Valid(data.diff)
    ensures words == CalldataOf(data)
  {
    var calldata := new Calldata([
      data.previousStateRoot, data.newStateRoot, data.blockNumber, data.blockHash, data.configHash,
      data.numAddrAccessed]);
    var d := data.diff;
    var nonces := calldata.PushStorage(d);
    calldata.PushNonces(d, nonces);
    calldata.PushDeployed(d);
    calldata.Push(|d.declared|);
    calldata.PushPairs(d.declared);
    words := calldata.words;
    EntriesInParts(HeaderWords(data), d);
  }

  /** From the changes of a block to its calldata.  The sixth word announces the number of addresses
      the difference is about. */
  method PublishBlock(changes: seq<Change>, previousStateRoot: Word, newStateRoot: Word, blockNumber: Word,
                      blockHash: Word, configHash: Word)
      returns (words: Option<seq<Word>>)
    ensures words.Some? <==> NothingErased(changes)
    ensures words.Some? ==>
              var d := DiffOf(changes);
              var data := BlockDaData(previousStateRoot, newStateRoot, blockNumber, blockHash, configHash,
                                      |Touched(d)|, d);
              && words.value == CalldataOf(data)
              && |words.value| > 5 && words.value[5] == |Touched(d)|
  {
    var built := BuildCommitmentStateDiff(changes);
    if built.None? {
      return None;
    }
    var (diff, count) := built.value;
    var calldata := BlockDataToCalldata(
      BlockDaData(previousStateRoot, newStateRoot, blockNumber, blockHash, configHash, count, diff));
    return Some(calldata);
  }

  // ---------------------------------------------------------------------------
  // What the calldata says
  // ---------------------------------------------------------------------------

  /** An address has an entry for each reason to have one. */
  lemma {:induction false} EntryCount(d: StateDiff)
    requires Valid(d)
    ensures |Entries(d)| == |Keys(d.storage) + Keys(d.nonces)| + |Keys(d.deployed)|
  {
    var left := Remaining(d.nonces, d.storage);
    forall a ensures a in Keys(left) <==> a in Keys(d.nonces) - Keys(d.storage) {
      RemainingGet(d.nonces, d.storage, a);
      KeyIsGet(left, a);
      KeyIsGet(d.nonces, a);
    }
    RemainingGet(d.nonces, d.storage, 0);
    KeysSize(d.storage);
    KeysSize(left);
    KeysSize(d.deployed);
    assert Keys(left) == Keys(d.nonces) - Keys(d.storage);
    assert Keys(d.storage) + Keys(d.nonces) == Keys(d.storage) + Keys(left);
  }

  /** The number of addresses in the header against the number of entries that follow.  A deployed
      contract that was also written is laid out twice; a replaced class whose contract was neither
      written nor deployed is not laid out at all.  The two numbers agree exactly when these are
      equally many. */
  lemma {:induction false} AddressCountGap(d: StateDiff)
    requires Valid(d)
    ensures var written := Keys(d.storage) + Keys(d.nonces);
            var twice := Keys(d.deployed) * written;
            var missing := Keys(d.replaced) - written - Keys(d.deployed);
            && |Entries(d)| - |Touched(d)| == |twice| - |missing|
            && (|Entries(d)| == |Touched(d)| <==> |twice| == |missing|)
  {
    EntryCount(d);
    var written := Keys(d.storage) + Keys(d.nonces);
    var missing := Keys(d.replaced) - written - Keys(d.deployed);
    assert Touched(d) == (written + Keys(d.deployed)) + missing;
    assert |written + Keys(d.deployed)| + |Keys(d.deployed) * written| == |written| + |Keys(d.deployed)| by {
      assert Keys(d.deployed) * written == written * Keys(d.deployed);
    }
  }

  /** A block changes each storage key once. */
  ghost predicate KeysOnce(changes: seq<Change>) {
    forall i, j | 0 <= i < j < |changes| && !changes[i].key.Other? :: changes[i].key != changes[j].key
  }

  lemma {:induction false} LastClassIsChange(changes: seq<Change>, a: Word, lookupOk: bool) returns (i: nat)
    requires LastClass(changes, a, lookupOk).Some?
    ensures i < |changes| && changes[i].key == ClassHashOf(a) && changes[i].lookupOk == lookupOk
    decreases |changes|
  {
    var c := changes[|changes| - 1];
    if c.key == ClassHashOf(a) && c.lookupOk == lookupOk {
      i := |changes| - 1;
    } else {
      i := LastClassIsChange(changes[..|changes| - 1], a, lookupOk);
    }
  }

  lemma {:induction false} DeployedOrReplaced(changes: seq<Change>, a: Word)
    requires NothingErased(changes) && KeysOnce(changes)
    ensures a !in Keys(DiffOf(changes).deployed) || a !in Keys(DiffOf(changes).replaced)
  {
    var d := DiffOf(changes);
    KeyIsGet(d.deployed, a);
    KeyIsGet(d.replaced, a);
    DiffIsLastWrite(changes, a, 0);
    if Get(d.deployed, a).Some? && Get(d.replaced, a).Some? {
      var i := LastClassIsChange(changes, a, false);
      var j := LastClassIsChange(changes, a, true);
      assert false;
    }
  }

  /** For every difference the builder makes: no contract is both deployed and replaced, so the two
      numbers differ by the deployed contracts that were written and by the replaced ones that were
      not. */
  lemma {:induction false} BuiltAddressCountGap(changes: seq<Change>)
    requires NothingErased(changes) && KeysOnce(changes)
    ensures var d := DiffOf(changes);
            var written := Keys(d.storage) + Keys(d.nonces);
            && Keys(d.deployed) !! Keys(d.replaced)
            && |Entries(d)| - |Touched(d)| == |Keys(d.deployed) * written| - |Keys(d.replaced) - written|
            && (|Entries(d)| == |Touched(d)| <==> |Keys(d.deployed) * written| == |Keys(d.replaced) - written|)
  {
    var d := DiffOf(changes);
    DiffIsLastWrite(changes, 0, 0);
    forall a | a in Keys(d.deployed) ensures a !in Keys(d.replaced) {
      DeployedOrReplaced(changes, a);
    }
    AddressCountGap(d);
    var written := Keys(d.storage) + Keys(d.nonces);
    assert Keys(d.replaced) - written - Keys(d.deployed) == Keys(d.replaced) - written;
  }

  /** When every lookup went through, the entries fall short of the announced number by the
      contracts that got a class and were not written.  The two numbers agree if and only if there
      is no such contract. */
  lemma {:induction false} WorkingLookupsGap(changes: seq<Change>)
    requires NothingErased(changes) && LookupsOk(changes)
    ensures var d := DiffOf(changes);
            var missing := Keys(d.replaced) - (Keys(d.storage) + Keys(d.nonces));
            && |Touched(d)| - |Entries(d)| == |missing|
            && (|Entries(d)| == |Touched(d)| <==> missing == {})
  {
    var d := DiffOf(changes);
    DiffIsLastWrite(changes, 0, 0);
    DeployedByFailedLookups(changes);
    AddressCountGap(d);
    var written := Keys(d.storage) + Keys(d.nonces);
    assert Keys(d.deployed) == {} && Keys(d.deployed) * written == {};
    assert Keys(d.replaced) - written - Keys(d.deployed) == Keys(d.replaced) - written;
  }

  ghost predicate Written(d: StateDiff, a: Word) {
    a in Keys(d.storage) || a in Keys(d.nonces)
  }

  /** What an entry says is what the difference says. */
  lemma {:induction false} EntrySound(d: StateDiff, e: Entry)
    requires Valid(d) && e in Entries(d)
    ensures e.nonce.Some? ==> e.nonce == Get(d.nonces, e.addr)
    ensures e.writes != [] ==> e.writes == Slots(d, e.addr)
    ensures e.classHash.Some? ==> e.classHash == ClassOf(d, e.addr)
    ensures Written(d, e.addr) || e.addr in Keys(d.deployed)
  {
    if e in StorageEntries(d) {
      var i :| 0 <= i < |d.storage| && e == StorageEntry(d, d.storage[i]);
      EntryIsGet(d.storage, i);
      KeyIsGet(d.storage, e.addr);
    } else if e in NonceEntries(d) {
      var left := Remaining(d.nonces, d.storage);
      var i :| 0 <= i < |left| && e == NonceEntry(d, left[i]);
      RemainingGet(d.nonces, d.storage, e.addr);
      EntryIsGet(left, i);
      KeyIsGet(d.nonces, e.addr);
    } else {
      assert e in DeployedEntries(d);
      var i :| 0 <= i < |d.deployed| && e == DeployedEntry(d.deployed[i]);
      EntryIsGet(d.deployed, i);
      KeyIsGet(d.deployed, e.addr);
    }
  }

  /** A written contract has an entry that says all of it. */
  lemma {:induction false} WrittenHasEntry(d: StateDiff, a: Word) returns (e: Entry)
    requires Valid(d) && Written(d, a)
    ensures e in Entries(d) && e == Entry(a, ClassOf(d, a), Get(d.nonces, a), Slots(d, a))
  {
    KeyIsGet(d.storage, a);
    KeyIsGet(d.nonces, a);
    if a in Keys(d.storage) {
      var i := IndexOf(d.storage, a);
      e := StorageEntries(d)[i];
      assert e in StorageEntries(d);
    } else {
      var left := Remaining(d.nonces, d.storage);
      RemainingGet(d.nonces, d.storage, a);
      var i := IndexOf(left, a);
      e := NonceEntries(d)[i];
      assert e in NonceEntries(d);
    }
  }

  /** The class given to an address is published if and only if the contract was written or
      deployed; the class of a contract that was only replaced is lost. */
  lemma {:induction false} ClassPublished(d: StateDiff, a: Word)
    requires Valid(d) && ClassOf(d, a).Some?
    ensures (exists e :: e in Entries(d) && e.addr == a && e.classHash == ClassOf(d, a))
            <==> Written(d, a) || a in Keys(d.deployed)
  {
    if Written(d, a) {
      var e := WrittenHasEntry(d, a);
    } else if a in Keys(d.deployed) {
      KeyIsGet(d.deployed, a);
      var e := DeployedEntries(d)[IndexOf(d.deployed, a)];
      assert e in Entries(d);
    } else {
      forall e | e in Entries(d) ensures e.addr != a {
        EntrySound(d, e);
      }
    }
  }

  /** When every lookup went through, the class given to a contract is published if and only if the
      contract was written: a contract that only got its class is not in the calldata at all. */
  lemma {:induction false} WorkingLookupsPublish(changes: seq<Change>, a: Word)
    requires NothingErased(changes) && LookupsOk(changes) && LastValue(changes, ClassHashOf(a)).Some?
    ensures var d := DiffOf(changes);
            (exists e :: e in Entries(d) && e.addr == a && e.classHash == LastValue(changes, ClassHashOf(a)))
            <==> Written(d, a)
  {
    var d := DiffOf(changes);
    DiffIsLastWrite(changes, a, 0);
    DeployedByFailedLookups(changes);
    WorkingLookupsClass(changes, a);
    KeyIsGet(d.deployed, a);
    ClassPublished(d, a);
  }

  lemma {:induction false} WorkingLookupsClass(changes: seq<Change>, a: Word)
    requires LookupsOk(changes)
    ensures LastClass(changes, a, true) == LastValue(changes, ClassHashOf(a))
    decreases |changes|
  {
    if changes != [] {
      var init := changes[..|changes| - 1];
      assert forall i | 0 <= i < |init| :: init[i] == changes[i];
      WorkingLookupsClass(init, a);
    }
  }

  /** A nonce is published if and only if the difference holds it. */
  lemma {:induction false} NoncePublished(d: StateDiff, a: Word, n: Word)
    requires Valid(d)
    ensures (exists e :: e in Entries(d) && e.addr == a && e.nonce == Some(n)) <==> Get(d.nonces, a) == Some(n)
  {
    if Get(d.nonces, a) == Some(n) {
      KeyIsGet(d.nonces, a);
      var e := WrittenHasEntry(d, a);
    } else {
      forall e | e in Entries(d) && e.addr == a ensures e.nonce != Some(n) {
        EntrySound(d, e);
      }
    }
  }
}
