/**
 The state difference a block publishes for data availability, built from the storage changes of
 the block.
 */
module StateDiffs {
  import opened Blocks
  import opened IndexMaps

  // ---------------------------------------------------------------------------
  // The state difference of a block
  // ---------------------------------------------------------------------------

  type Writes = IndexMap<Word>

  datatype StateDiff = StateDiff(
    declared: IndexMap<Word>,
    storage: IndexMap<Writes>,
    nonces: IndexMap<Word>,
    deployed: IndexMap<Word>,
    replaced: IndexMap<Word>)

  const EMPTY_DIFF := StateDiff([], [], [], [], [])

  datatype StorageKey =
    | NonceOf(addr: Word)
    | StorageOf(addr: Word, slot: Word)
    | ClassHashOf(addr: Word)
    | CompiledClassOf(classHash: Word)
    | Other

  /** A change of one storage key.  For a class hash the builder asks the runtime for the class and
      looks only at whether that call went through, not at whether there is such a class. */
  datatype Change = Change(key: StorageKey, value: Option<Word>, lookupOk: bool)

  /** The keys that are never erased; the code unwraps their values. */
  predicate ExpectsValue(key: StorageKey) {
    key.NonceOf? || key.StorageOf? || key.ClassHashOf?
  }

  ghost predicate NothingErased(changes: seq<Change>) {
    forall i | 0 <= i < |changes| :: ExpectsValue(changes[i].key) ==> changes[i].value.Some?
  }

  function Slots(d: StateDiff, a: Word): Writes {
    var found := Get(d.storage, a);
    if found.Some? then found.value else []
  }

  /** Adds one change. */
  function Record(d: StateDiff, c: Change): StateDiff
    requires ExpectsValue(c.key) ==> c.value.Some?
  {
    match c.key
    case NonceOf(a) => d.(nonces := Insert(d.nonces, a, c.value.value))
    case StorageOf(a, slot) => d.(storage := Insert(d.storage, a, Insert(Slots(d, a), slot, c.value.value)))
    case ClassHashOf(a) =>
      if c.lookupOk then d.(replaced := Insert(d.replaced, a, c.value.value))
      else d.(deployed := Insert(d.deployed, a, c.value.value))
    case CompiledClassOf(h) => d.(declared := Insert(d.declared, h, CompiledHash(c.value)))
    case Other => d
  }

  /** An erased compiled class hash is published as zero. */
  function CompiledHash(value: Option<Word>): Word {
    if value.Some? then value.value else 0
  }

  function DiffOf(changes: seq<Change>): StateDiff
    requires NothingErased(changes)
  {
    if changes == [] then EMPTY_DIFF
    else Record(DiffOf(changes[..|changes| - 1]), changes[|changes| - 1])
  }

  /** The maps of a difference have no key twice. */
  ghost predicate Valid(d: StateDiff) {
    && DistinctKeys(d.declared) && DistinctKeys(d.storage) && DistinctKeys(d.nonces)
    && DistinctKeys(d.deployed) && DistinctKeys(d.replaced)
    && forall i | 0 <= i < |d.storage| :: DistinctKeys(d.storage[i].1)
  }

  /** The addresses a difference is about. */
  function Touched(d: StateDiff): set<Word> {
    Keys(d.storage) + Keys(d.nonces) + Keys(d.deployed) + Keys(d.replaced)
  }

  lemma {:induction false} InsertKeys<V>(m: IndexMap<V>, k: Word, v: V)
    requires DistinctKeys(m)
    ensures Keys(Insert(m, k, v)) == Keys(m) + {k} && DistinctKeys(Insert(m, k, v))
  {
    forall x ensures x in Keys(Insert(m, k, v)) <==> x in Keys(m) + {k} {
      KeyIsGet(Insert(m, k, v), x);
      KeyIsGet(m, x);
      InsertGet(m, k, v, x);
    }
    InsertGet(m, k, v, k);
  }

  lemma {:induction false} RecordKeeps(d: StateDiff, c: Change)
    requires Valid(d) && (ExpectsValue(c.key) ==> c.value.Some?)
    ensures Valid(Record(d, c))
    ensures Touched(Record(d, c)) == Touched(d) + if ExpectsValue(c.key) then {c.key.addr} else {}
  {
    match c.key
    case NonceOf(a) => InsertKeys(d.nonces, a, c.value.value);
    case StorageOf(a, slot) =>
      InsertKeys(Slots(d, a), slot, c.value.value);
      InsertKeys(d.storage, a, Insert(Slots(d, a), slot, c.value.value));
    case ClassHashOf(a) =>
      InsertKeys(d.replaced, a, c.value.value);
      InsertKeys(d.deployed, a, c.value.value);
    case CompiledClassOf(h) => InsertKeys(d.declared, h, CompiledHash(c.value));
    case Other =>
  }

  // ---------------------------------------------------------------------------
  // What the difference says
  // ---------------------------------------------------------------------------

  /** The last change of a key. */
  function LastChange(changes: seq<Change>, key: StorageKey): Option<Change> {
    if changes == [] then None
    else if changes[|changes| - 1].key == key then Some(changes[|changes| - 1])
    else LastChange(changes[..|changes| - 1], key)
  }

  function LastValue(changes: seq<Change>, key: StorageKey): Option<Word> {
    var c := LastChange(changes, key);
    if c.Some? then c.value.value else None
  }

  /** The last class hash given to an address among those whose lookup went through, or among
      those whose lookup failed. */
  function LastClass(changes: seq<Change>, a: Word, lookupOk: bool): Option<Word> {
    if changes == [] then None
    else
      var c := changes[|changes| - 1];
      if c.key == ClassHashOf(a) && c.lookupOk == lookupOk then c.value
      else LastClass(changes[..|changes| - 1], a, lookupOk)
  }

  lemma {:induction false} RecordGet(d: StateDiff, c: Change, a: Word, slot: Word)
    requires Valid(d) && (ExpectsValue(c.key) ==> c.value.Some?)
    ensures var r := Record(d, c);
            && Get(r.nonces, a) == (if c.key == NonceOf(a) then c.value else Get(d.nonces, a))
            && Get(Slots(r, a), slot) == (if c.key == StorageOf(a, slot) then c.value else Get(Slots(d, a), slot))
            && Get(r.declared, a) ==
               (if c.key == CompiledClassOf(a) then Some(CompiledHash(c.value)) else Get(d.declared, a))
  {
    match c.key
    case NonceOf(x) => InsertGet(d.nonces, x, c.value.value, a);
    case StorageOf(x, s) =>
      InsertGet(d.storage, x, Insert(Slots(d, x), s, c.value.value), a);
      InsertGet(Slots(d, x), s, c.value.value, slot);
    case ClassHashOf(_) =>
    case CompiledClassOf(h) => InsertGet(d.declared, h, CompiledHash(c.value), a);
    case Other =>
  }

  lemma {:induction false} RecordGetClass(d: StateDiff, c: Change, a: Word)
    requires Valid(d) && (ExpectsValue(c.key) ==> c.value.Some?)
    ensures var r := Record(d, c);
            var writes := c.key == ClassHashOf(a);
            && Get(r.deployed, a) == (if writes && !c.lookupOk then c.value else Get(d.deployed, a))
            && Get(r.replaced, a) == (if writes && c.lookupOk then c.value else Get(d.replaced, a))
  {
    if c.key.ClassHashOf? {
      InsertGet(d.deployed, c.key.addr, c.value.value, a);
      InsertGet(d.replaced, c.key.addr, c.value.value, a);
    }
  }

  /** Over all changes of a block the difference holds, under every key, what was written last. */
  lemma {:induction false} DiffIsLastWrite(changes: seq<Change>, a: Word, slot: Word)
    requires NothingErased(changes)
    ensures var d := DiffOf(changes);
            && Valid(d)
            && Get(d.nonces, a) == LastValue(changes, NonceOf(a))
            && Get(Slots(d, a), slot) == LastValue(changes, StorageOf(a, slot))
            && Get(d.deployed, a) == LastClass(changes, a, false)
            && Get(d.replaced, a) == LastClass(changes, a, true)
            && (LastChange(changes, CompiledClassOf(a)).None? ==> Get(d.declared, a) == None)
            && (LastChange(changes, CompiledClassOf(a)).Some? ==>
                  Get(d.declared, a) == Some(CompiledHash(LastValue(changes, CompiledClassOf(a)))))
    decreases |changes|
  {
    if changes != [] {
      var init, c := changes[..|changes| - 1], changes[|changes| - 1];
      DiffIsLastWrite(init, a, slot);
      var d := DiffOf(init);
      RecordKeeps(d, c);
      RecordGet(d, c, a, slot);
      RecordGetClass(d, c, a);
    }
  }

  ghost predicate LookupsOk(changes: seq<Change>) {
    forall i | 0 <= i < |changes| && changes[i].key.ClassHashOf? :: changes[i].lookupOk
  }

  /** A contract counts as deployed only when a lookup failed: the difference deploys nothing if and
      only if every lookup went through, whatever classes exist. */
  lemma {:induction false} DeployedByFailedLookups(changes: seq<Change>)
    requires NothingErased(changes)
    ensures DiffOf(changes).deployed == [] <==> LookupsOk(changes)
    decreases |changes|
  {
    if changes != [] {
      var init, c := changes[..|changes| - 1], changes[|changes| - 1];
      DeployedByFailedLookups(init);
      assert LookupsOk(changes) <==> LookupsOk(init) && (c.key.ClassHashOf? ==> c.lookupOk);
    }
  }

  /** The difference of the first changes, none of which was an erasure. */
  ghost predicate BuiltUpTo(changes: seq<Change>, i: nat, d: StateDiff)
    requires i <= |changes|
  {
    NothingErased(changes[..i]) && d == DiffOf(changes[..i]) && Valid(d)
  }

  lemma {:induction false} DiffNext(changes: seq<Change>, i: nat)
    requires i < |changes| && NothingErased(changes[..i]) && BuiltUpTo(changes, i, DiffOf(changes[..i]))
    requires ExpectsValue(changes[i].key) ==> changes[i].value.Some?
    ensures var d, c := DiffOf(changes[..i]), changes[i];
            && BuiltUpTo(changes, i + 1, Record(d, c))
            && Touched(Record(d, c)) == Touched(d) + if ExpectsValue(c.key) then {c.key.addr} else {}
  {
    assert changes[..i + 1][..i] == changes[..i] && changes[..i + 1][i] == changes[i];
    RecordKeeps(DiffOf(changes[..i]), changes[i]);
  }

  /** The result is the difference together with the number of addresses it is about. */
  method BuildCommitmentStateDiff(changes: seq<Change>) returns (r: Option<(StateDiff, nat)>)
    ensures r.Some? <==> NothingErased(changes)
    ensures r.Some? ==> r.value == (DiffOf(changes), |Touched(DiffOf(changes))|)
    ensures r.Some? ==> Valid(r.value.0)
  {
    var d, accessed: set<Word> := EMPTY_DIFF, {};
    for i := 0 to |changes|
      invariant BuiltUpTo(changes, i, d) && accessed == Touched(d)
    {
      var c := changes[i];
      if ExpectsValue(c.key) && c.value.None? {
        return None;
      }
      DiffNext(changes, i);
      d := Record(d, c);
      if ExpectsValue(c.key) {
        accessed := accessed + {c.key.addr};
      }
    }
    assert changes[..|changes|] == changes;
    return Some((d, |accessed|));
  }
}
