/**
 From the pallet to L1: the settled updates carry exactly the messages that the executed
 transactions sent, and exactly the messages from L1 that were handled.
 */
module Conservation {
  import opened Basics
  import opened Felts
  import opened Transactions
  import opened Blocks
  import opened Pallet
  import opened PalletRuns
  import opened Settlement
  import CallMerge

  /** The finalised chain as the settlement worker reads it from a run of the pallet. */
  function ChainOf(finished: seq<Finished>): seq<ChainBlock> {
    seq(|finished|, i requires 0 <= i < |finished| => ChainBlock(finished[i].block, finished[i].storage.txMessages))
  }

  ghost predicate WorldOf(l: Ledger, chainId: Felt, w: World) {
    w.final == ChainOf(l.finished) && w.chainId == chainId
  }

  /** What the pallet records of a call tree is never more than the tree sent, and it is all of it
      if and only if the tree numbers its messages consecutively from zero. */
  lemma {:induction false} AllMessagesRecorded(c: CallInfo)
    ensures |CallMessages(Some(c))| <= CallMerge.Count(MessageView(c))
    ensures |CallMessages(Some(c))| == CallMerge.Count(MessageView(c)) <==> CallMerge.Numbered(MessageView(c), 0)
  {
    CallMerge.MergeEmits(MessageView(c), 0);
    CallMerge.WalkBound(MessageView(c), 0, 0, 0);
    CallMerge.MergeIsComplete(MessageView(c), 0);
  }

  // ---------------------------------------------------------------------------
  // One list of messages
  // ---------------------------------------------------------------------------

  /** One list is at least as long as the other, and they coincide exactly under a condition. */
  ghost predicate Matches<T>(long: seq<T>, short: seq<T>, condition: bool) {
    |long| >= |short| && (|long| == |short| <==> condition) && (condition ==> long == short)
  }

  lemma {:induction false} MatchesAppend<T>(a: seq<T>, b: seq<T>, p: bool, c: seq<T>, d: seq<T>, q: bool)
    requires Matches(a, b, p) && Matches(c, d, q)
    ensures Matches(a + c, b + d, p && q)
  {
  }

  /** No other transaction with the same hash sent a message. */
  ghost predicate Unshared(rs: seq<Record>, q: nat)
    requires q < |rs|
  {
    forall p | 0 <= p < |rs| && p != q && rs[p].hash == rs[q].hash :: rs[p].messages == []
  }

  lemma {:induction false} NoMessagesFor(rs: seq<Record>, h: Felt)
    ensures MessagesFor(rs, h) == [] <==> forall p | 0 <= p < |rs| && rs[p].hash == h :: rs[p].messages == []
    decreases |rs|
  {
    if rs != [] {
      var n := |rs| - 1;
      NoMessagesFor(rs[..n], h);
      assert forall p | 0 <= p < n :: rs[..n][p] == rs[p];
    }
  }

  /** The stored list of a transaction is at least as long as what the transaction sent, and it is
      exactly that precisely when the transaction shares its hash with no other sender. */
  lemma {:induction false} StoredList(rs: seq<Record>, q: nat)
    requires q < |rs|
    ensures Matches(MessagesFor(rs, rs[q].hash), rs[q].messages, Unshared(rs, q))
    decreases |rs|
  {
    var n := |rs| - 1;
    var init, h := rs[..n], rs[q].hash;
    assert forall p | 0 <= p < n :: init[p] == rs[p];
    if q < n {
      StoredList(init, q);
      assert init[q] == rs[q];
      assert Unshared(rs, q) <==> Unshared(init, q) && (rs[n].hash == h ==> rs[n].messages == []);
    } else {
      NoMessagesFor(init, h);
    }
  }

  // ---------------------------------------------------------------------------
  // One block
  // ---------------------------------------------------------------------------

  function SentBy(rs: seq<Record>): seq<Message> {
    if rs == [] then [] else SentBy(rs[..|rs| - 1]) + rs[|rs| - 1].messages
  }

  ghost predicate AllUnshared(rs: seq<Record>, from: nat, to: nat)
    requires to <= |rs|
  {
    forall q | from <= q < to :: Unshared(rs, q)
  }

  lemma {:induction false} CollectOne(w: World, b: ChainBlock, init: seq<Record>, r: Record)
    requires r.hash == ComputeHash(r.tx, w.chainId, false)
    ensures MessagesToL1(w, b, Txs(init + [r])) == MessagesToL1(w, b, Txs(init)) + At(b.txMessages, r.hash)
  {
    var txs := Txs(init + [r]);
    assert txs[..|txs| - 1] == Txs(init);
  }

  lemma {:induction false} SentOne(init: seq<Record>, r: Record)
    ensures SentBy(init + [r]) == SentBy(init) + r.messages
  {
    assert (init + [r])[..|init|] == init;
  }

  /** The stored lists hold what the transactions `rs` sent. */
  ghost predicate Lists(txMessages: map<Felt, seq<Message>>, rs: seq<Record>) {
    forall h :: At(txMessages, h) == MessagesFor(rs, h)
  }

  ghost predicate Hashed(rs: seq<Record>, chainId: Felt) {
    forall r | r in rs :: r.hash == ComputeHash(r.tx, chainId, false)
  }

  ghost predicate AllTrue(flags: seq<bool>) {
    forall i | 0 <= i < |flags| :: flags[i]
  }

  lemma {:induction false} CollectedNext(w: World, b: ChainBlock, init: seq<Record>, r: Record, p: bool, q: bool)
    requires r.hash == ComputeHash(r.tx, w.chainId, false)
    requires Matches(MessagesToL1(w, b, Txs(init)), SentBy(init), p) && Matches(At(b.txMessages, r.hash), r.messages, q)
    ensures Matches(MessagesToL1(w, b, Txs(init + [r])), SentBy(init + [r]), p && q)
  {
    MatchesAppend(MessagesToL1(w, b, Txs(init)), SentBy(init), p, At(b.txMessages, r.hash), r.messages, q);
    CollectOne(w, b, init, r);
    SentOne(init, r);
  }

  /** The messages an update collects, given how the stored list of each transaction compares with
      what the transaction sent. */
  lemma {:induction false} CollectedMessages(w: World, b: ChainBlock, records: seq<Record>, flags: seq<bool>)
    requires |flags| == |records| && Hashed(records, w.chainId)
    requires forall j | 0 <= j < |records| :: Matches(At(b.txMessages, records[j].hash), records[j].messages, flags[j])
    ensures Matches(MessagesToL1(w, b, Txs(records)), SentBy(records), AllTrue(flags))
    decreases |records|
  {
    if records != [] {
      var n := |records| - 1;
      var init, r := records[..n], records[n];
      assert records == init + [r];
      CollectedMessages(w, b, init, flags[..n]);
      CollectedNext(w, b, init, r, AllTrue(flags[..n]), flags[n]);
      assert AllTrue(flags) <==> AllTrue(flags[..n]) && flags[n];
    }
  }

  // ---------------------------------------------------------------------------
  // All settled blocks
  // ---------------------------------------------------------------------------

  function UpdatesToL1(us: seq<Update>): seq<Message> {
    if us == [] then [] else UpdatesToL1(us[..|us| - 1]) + us[|us| - 1].messagesToL1
  }

  function UpdatesToL2(us: seq<Update>): seq<MessageToL2> {
    if us == [] then [] else UpdatesToL2(us[..|us| - 1]) + us[|us| - 1].messagesToL2
  }

  /** The transactions of the blocks from `a` to before `b`, in order. */
  function RecordsIn(finished: seq<Finished>, a: nat, b: nat): seq<Record>
    requires a <= b <= |finished|
    decreases b
  {
    if a == b then [] else RecordsIn(finished, a, b - 1) + finished[b - 1].records
  }

  lemma {:induction false} RecordsInPrefix(finished: seq<Finished>, i: nat)
    requires i <= |finished|
    ensures RecordsOf(finished[..i]) == RecordsIn(finished, 0, i)
    decreases i
  {
    if i > 0 {
      RecordsInPrefix(finished, i - 1);
      assert finished[..i][..i - 1] == finished[..i - 1];
    }
  }

  lemma {:induction false} RecordsInSplit(finished: seq<Finished>, a: nat, b: nat, c: nat)
    requires a <= b <= c <= |finished|
    ensures RecordsIn(finished, a, c) == RecordsIn(finished, a, b) + RecordsIn(finished, b, c)
    decreases c
  {
    if b < c {
      RecordsInSplit(finished, a, b, c - 1);
    }
  }

  /** In the blocks from `from` to before `to`, no transaction shares its hash with a sender of
      messages in the same or an earlier block. */
  ghost predicate BlocksUnshared(finished: seq<Finished>, from: nat, to: nat)
    requires to <= |finished|
  {
    forall i | from <= i < to :: BlockUnshared(finished, i)
  }

  ghost predicate BlockUnshared(finished: seq<Finished>, i: nat)
    requires i < |finished|
  {
    var before, all := RecordsIn(finished, 0, i), RecordsIn(finished, 0, i + 1);
    |before| <= |all| && AllUnshared(all, |before|, |all|)
  }

  lemma {:induction false} SentByAppend(rs: seq<Record>, rs': seq<Record>)
    ensures SentBy(rs + rs') == SentBy(rs) + SentBy(rs')
    decreases |rs'|
  {
    if rs' == [] {
      assert rs + rs' == rs;
    } else {
      var n := |rs'| - 1;
      SentByAppend(rs, rs'[..n]);
      assert rs + rs' == (rs + rs'[..n]) + [rs'[n]];
      SentOne(rs + rs'[..n], rs'[n]);
      ConcatAssoc(SentBy(rs), SentBy(rs'[..n]), rs'[n].messages);
    }
  }

  /** What the storage at the end of block `i` and the digest of that block hold. */
  ghost predicate BlockFacts(finished: seq<Finished>, i: nat, chainId: Felt)
    requires i < |finished|
  {
    && Hashed(finished[i].records, chainId)
    && finished[i].block.transactions == Txs(finished[i].records)
    && Lists(finished[i].storage.txMessages, RecordsIn(finished, 0, i) + finished[i].records)
  }

  ghost predicate PalletFacts(l: Ledger, chainId: Felt) {
    forall i | 0 <= i < |l.finished| :: BlockFacts(l.finished, i, chainId)
  }

  lemma {:induction false} BlockRecords(config: Config, l: Ledger, i: nat)
    requires Inv(config, l) && i < |l.finished|
    ensures BlockFacts(l.finished, i, config.chainId)
  {
    assert BlockInv(l, i);
    RecordsInPrefix(l.finished, i + 1);
    assert RecordsIn(l.finished, 0, i + 1) == RecordsIn(l.finished, 0, i) + l.finished[i].records;
    assert forall r | r in l.finished[i].records :: r in AllRecords(l) by {
      RecordsAround(l, i, i + 1);
      assert RecordsIn(l.finished, i, i + 1) == l.finished[i].records;
    }
  }

  lemma {:induction false} InvFacts(config: Config, l: Ledger)
    requires Inv(config, l)
    ensures PalletFacts(l, config.chainId)
  {
    forall i | 0 <= i < |l.finished| ensures BlockFacts(l.finished, i, config.chainId) {
      BlockRecords(config, l, i);
    }
  }

  /** The update of one block carries what its transactions sent exactly when these share no hash. */
  lemma {:induction false} BlockMessages(w: World, b: ChainBlock, before: seq<Record>, records: seq<Record>)
    requires Hashed(records, w.chainId) && Lists(b.txMessages, before + records)
    ensures Matches(MessagesToL1(w, b, Txs(records)), SentBy(records),
                    AllUnshared(before + records, |before|, |before + records|))
  {
    ghost var flags := Flags(before + records, |before|, |records|);
    RecordsListed(b, before, records, flags);
    CollectedMessages(w, b, records, flags);
    AllFlags(before + records, |before|, flags);
  }

  lemma {:induction false} RecordsListed(b: ChainBlock, before: seq<Record>, records: seq<Record>, flags: seq<bool>)
    requires Lists(b.txMessages, before + records)
    requires |flags| == |records|
    requires forall j | 0 <= j < |records| :: flags[j] == Unshared(before + records, |before| + j)
    ensures forall j | 0 <= j < |records| :: Matches(At(b.txMessages, records[j].hash), records[j].messages, flags[j])
  {
    forall j | 0 <= j < |records|
      ensures Matches(At(b.txMessages, records[j].hash), records[j].messages, flags[j])
    {
      RecordListed(b, before, records, j, flags[j]);
    }
  }

  lemma {:induction false} RecordListed(b: ChainBlock, before: seq<Record>, records: seq<Record>, j: nat, flag: bool)
    requires Lists(b.txMessages, before + records) && j < |records| && flag == Unshared(before + records, |before| + j)
    ensures Matches(At(b.txMessages, records[j].hash), records[j].messages, flag)
  {
    ListedAt(b, before + records, |before| + j);
    assert (before + records)[|before| + j] == records[j];
  }

  ghost function Flags(all: seq<Record>, base: nat, n: nat): (r: seq<bool>)
    requires base + n <= |all|
    ensures |r| == n && forall j | 0 <= j < n :: r[j] == Unshared(all, base + j)
  {
    if n == 0 then [] else Flags(all, base, n - 1) + [Unshared(all, base + n - 1)]
  }

  lemma {:induction false} ListedAt(b: ChainBlock, all: seq<Record>, q: nat)
    requires Lists(b.txMessages, all) && q < |all|
    ensures Matches(At(b.txMessages, all[q].hash), all[q].messages, Unshared(all, q))
  {
    StoredList(all, q);
  }

  lemma {:induction false} AllFlags(all: seq<Record>, base: nat, flags: seq<bool>)
    requires base + |flags| == |all| && forall j | 0 <= j < |flags| :: flags[j] == Unshared(all, base + j)
    ensures AllTrue(flags) <==> AllUnshared(all, base, |all|)
  {
    if AllTrue(flags) {
      forall q | base <= q < |all| ensures Unshared(all, q) {
        assert flags[q - base];
      }
    }
  }

  /** The messages of the i-th update are collected from the i-th block after the starting state. */
  lemma {:induction false} SettledAt(w: World, s: L1State, k: nat, i: nat)
    requires CanSettle(w, s, k) && i < k
    ensures |Settled(w, s, k)| == k && HasUpdate(w, s.number + 1 + i)
    ensures var u, b := Settled(w, s, k)[i], w.final[s.number + 1 + i];
            && u.messagesToL1 == MessagesToL1(w, b, b.block.transactions)
            && u.messagesToL2 == MessagesToL2(b.block.transactions)
    decreases k
  {
    assert HasUpdate(w, s.number + 1 + i);
    if i < k - 1 {
      SettledAt(w, s, k - 1, i);
    } else if k > 1 {
      SettledAt(w, s, k - 1, 0);
    }
  }

  ghost predicate Carries(u: Update, r: Finished, flag: bool) {
    Matches(u.messagesToL1, SentBy(r.records), flag)
  }

  ghost predicate AllCarry(us: seq<Update>, finished: seq<Finished>, a: nat, flags: seq<bool>) {
    && a + |us| <= |finished| && |flags| == |us|
    && forall i | 0 <= i < |us| :: Carries(us[i], finished[a + i], flags[i])
  }

  lemma {:induction false} UpdatesNext(us: seq<Update>, u: Update, finished: seq<Finished>, a: nat, p: bool, q: bool)
    requires a + |us| < |finished|
    requires Matches(UpdatesToL1(us), SentBy(RecordsIn(finished, a, a + |us|)), p) && Carries(u, finished[a + |us|], q)
    ensures Matches(UpdatesToL1(us + [u]), SentBy(RecordsIn(finished, a, a + |us| + 1)), p && q)
  {
    var n := |us|;
    assert (us + [u])[..n] == us;
    MatchesAppend(UpdatesToL1(us), SentBy(RecordsIn(finished, a, a + n)), p,
                  u.messagesToL1, SentBy(finished[a + n].records), q);
    SentByAppend(RecordsIn(finished, a, a + n), finished[a + n].records);
  }

  lemma {:induction false} AllTrueNext(flags: seq<bool>, n: nat)
    requires n < |flags|
    ensures AllTrue(flags[..n + 1]) == (AllTrue(flags[..n]) && flags[n])
  {
    assert flags[..n + 1] == flags[..n] + [flags[n]];
  }

  ghost predicate MatchedUpTo(us: seq<Update>, finished: seq<Finished>, a: nat, flags: seq<bool>, n: nat)
    requires n <= |us| == |flags| && a + n <= |finished|
  {
    Matches(UpdatesToL1(us[..n]), SentBy(RecordsIn(finished, a, a + n)), AllTrue(flags[..n]))
  }

  lemma {:induction false} MatchedNext(us: seq<Update>, finished: seq<Finished>, a: nat, flags: seq<bool>, n: nat)
    requires n < |us| == |flags| && a + n < |finished|
    requires MatchedUpTo(us, finished, a, flags, n) && Carries(us[n], finished[a + n], flags[n])
    ensures MatchedUpTo(us, finished, a, flags, n + 1)
  {
    assert us[..n + 1] == us[..n] + [us[n]];
    UpdatesNext(us[..n], us[n], finished, a, AllTrue(flags[..n]), flags[n]);
    AllTrueNext(flags, n);
  }

  lemma {:induction false} UpdatesMatch(us: seq<Update>, finished: seq<Finished>, a: nat, flags: seq<bool>, n: nat)
    requires AllCarry(us, finished, a, flags) && n <= |us|
    ensures MatchedUpTo(us, finished, a, flags, n)
    decreases n
  {
    if n > 0 {
      UpdatesMatch(us, finished, a, flags, n - 1);
      assert Carries(us[n - 1], finished[a + (n - 1)], flags[n - 1]);
      MatchedNext(us, finished, a, flags, n - 1);
    }
  }

  /** Whether each of the blocks shares no hash. */
  ghost function BlockFlags(finished: seq<Finished>, a: nat, n: nat): (r: seq<bool>)
    requires a + n <= |finished|
    ensures |r| == n && forall j | 0 <= j < n :: r[j] == BlockUnshared(finished, a + j)
  {
    if n == 0 then [] else BlockFlags(finished, a, n - 1) + [BlockUnshared(finished, a + n - 1)]
  }

  lemma {:induction false} AllBlockFlags(finished: seq<Finished>, a: nat, n: nat)
    requires a + n <= |finished|
    ensures AllTrue(BlockFlags(finished, a, n)) <==> BlocksUnshared(finished, a, a + n)
  {
    var flags := BlockFlags(finished, a, n);
    if AllTrue(flags) {
      forall i | a <= i < a + n ensures BlockUnshared(finished, i) {
        assert flags[i - a];
      }
    }
  }

  lemma {:induction false} SettledCarries(l: Ledger, w: World, s: L1State, k: nat, i: nat)
    requires PalletFacts(l, w.chainId) && WorldOf(l, w.chainId, w) && CanSettle(w, s, k)
            && s.number + k < |l.finished| && i < k
    ensures |Settled(w, s, k)| == k
    ensures var n := s.number + 1 + i;
            Carries(Settled(w, s, k)[i], l.finished[n], BlockUnshared(l.finished, n))
  {
    var n := s.number + 1 + i;
    SettledAt(w, s, k, i);
    assert BlockFacts(l.finished, n, w.chainId);
    BlockMessages(w, w.final[n], RecordsIn(l.finished, 0, n), l.finished[n].records);
  }

  lemma {:induction false} SettledLength(w: World, s: L1State, k: nat)
    requires CanSettle(w, s, k)
    ensures |Settled(w, s, k)| == k
  {
    if k > 0 {
      SettledAt(w, s, k, 0);
    }
  }

  lemma {:induction false} SettledAllCarry(l: Ledger, w: World, s: L1State, k: nat, us: seq<Update>)
    requires PalletFacts(l, w.chainId) && WorldOf(l, w.chainId, w) && CanSettle(w, s, k) && s.number + k < |l.finished|
    requires us == Settled(w, s, k)
    ensures |us| == k && AllCarry(us, l.finished, s.number + 1, BlockFlags(l.finished, s.number + 1, k))
  {
    SettledLength(w, s, k);
    var a, flags := s.number + 1, BlockFlags(l.finished, s.number + 1, k);
    forall i | 0 <= i < k ensures Carries(us[i], l.finished[a + i], flags[i]) {
      SettledCarries(l, w, s, k, i);
    }
  }

  /** Messages to L1 are conserved end to end.  Over the settled blocks the updates carry, in block
      and transaction order, exactly the messages the transactions sent, if and only if no
      transaction shares its hash with an earlier or concurrent sender: the stored lists are
      appended to and never cleared. */
  lemma {:induction false} MessagesConserved(l: Ledger, w: World, s: L1State, k: nat, us: seq<Update>)
    requires PalletFacts(l, w.chainId) && WorldOf(l, w.chainId, w) && CanSettle(w, s, k) && s.number + k < |l.finished|
    requires us == Settled(w, s, k)
    ensures ConservedExactlyIfUnshared(us, l.finished, s.number + 1, k)
  {
    SettledAllCarry(l, w, s, k, us);
    CarriedIsConserved(us, l.finished, s.number + 1, k);
  }

  /** The updates carry what the transactions of the `k` blocks from `a` sent if and only if these
      share no hash. */
  ghost predicate ConservedExactlyIfUnshared(us: seq<Update>, finished: seq<Finished>, a: nat, k: nat)
    requires a + k <= |finished|
  {
    UpdatesToL1(us) == SentBy(RecordsIn(finished, a, a + k)) <==> BlocksUnshared(finished, a, a + k)
  }

  lemma {:induction false} CarriedIsConserved(us: seq<Update>, finished: seq<Finished>, a: nat, k: nat)
    requires a + k <= |finished| && |us| == k && AllCarry(us, finished, a, BlockFlags(finished, a, k))
    ensures ConservedExactlyIfUnshared(us, finished, a, k)
  {
    var flags := BlockFlags(finished, a, k);
    UpdatesMatch(us, finished, a, flags, k);
    assert us[..k] == us && flags[..k] == flags;
    AllBlockFlags(finished, a, k);
  }

  // ---------------------------------------------------------------------------
  // Messages from L1
  // ---------------------------------------------------------------------------

  lemma {:induction false} ToL2Append(txs: seq<Transaction>, txs': seq<Transaction>)
    requires Convertible(txs) && Convertible(txs')
    ensures Convertible(txs + txs') && MessagesToL2(txs + txs') == MessagesToL2(txs) + MessagesToL2(txs')
    decreases |txs'|
  {
    if txs' == [] {
      assert txs + txs' == txs;
    } else {
      var n := |txs'| - 1;
      ToL2Append(txs, txs'[..n]);
      assert (txs + txs')[..|txs| + n] == txs + txs'[..n];
    }
  }

  /** `ms` are the L1 handlers among the transactions, in order. */
  ghost predicate AreHandlers(ms: seq<MessageToL2>, rs: seq<Record>) {
    Convertible(Txs(rs)) && ms == MessagesToL2(Txs(rs))
  }

  lemma {:induction false} HandlersAppend(ms: seq<MessageToL2>, rs: seq<Record>, ms': seq<MessageToL2>,
                                          rs': seq<Record>)
    requires AreHandlers(ms, rs) && AreHandlers(ms', rs')
    ensures AreHandlers(ms + ms', rs + rs')
  {
    assert Txs(rs + rs') == Txs(rs) + Txs(rs');
    ToL2Append(Txs(rs), Txs(rs'));
  }

  ghost predicate AllCarryHandlers(us: seq<Update>, finished: seq<Finished>, a: nat) {
    a + |us| <= |finished| && forall i | 0 <= i < |us| :: CarriesHandlers(us[i], finished, a + i)
  }

  ghost predicate CarriesHandlers(u: Update, finished: seq<Finished>, i: nat)
    requires i < |finished|
  {
    AreHandlers(u.messagesToL2, finished[i].records)
  }

  lemma {:induction false} NoHandlers()
    ensures AreHandlers([], [])
  {
  }

  lemma {:induction false} HandlersNext(us: seq<Update>, finished: seq<Finished>, a: nat)
    requires us != [] && a + |us| <= |finished|
    requires var n := |us| - 1;
             AreHandlers(UpdatesToL2(us[..n]), RecordsIn(finished, a, a + n)) && CarriesHandlers(us[n], finished, a + n)
    ensures AreHandlers(UpdatesToL2(us), RecordsIn(finished, a, a + |us|))
  {
    var n := |us| - 1;
    HandlersAppend(UpdatesToL2(us[..n]), RecordsIn(finished, a, a + n), us[n].messagesToL2, finished[a + n].records);
  }

  lemma {:induction false} HandlersMatch(us: seq<Update>, finished: seq<Finished>, a: nat)
    requires AllCarryHandlers(us, finished, a)
    ensures AreHandlers(UpdatesToL2(us), RecordsIn(finished, a, a + |us|))
    decreases |us|
  {
    if us == [] {
      NoHandlers();
    } else {
      var n := |us| - 1;
      HandlersMatch(us[..n], finished, a);
      assert CarriesHandlers(us[n], finished, a + n);
      HandlersNext(us, finished, a);
    }
  }

  lemma {:induction false} SettledCarriesHandlers(l: Ledger, w: World, s: L1State, k: nat, i: nat)
    requires PalletFacts(l, w.chainId) && WorldOf(l, w.chainId, w) && CanSettle(w, s, k)
            && s.number + k < |l.finished| && i < k
    ensures |Settled(w, s, k)| == k && CarriesHandlers(Settled(w, s, k)[i], l.finished, s.number + 1 + i)
  {
    SettledAt(w, s, k, i);
    assert BlockFacts(l.finished, s.number + 1 + i, w.chainId);
  }

  lemma {:induction false} SettledAllCarryHandlers(l: Ledger, w: World, s: L1State, k: nat, us: seq<Update>)
    requires PalletFacts(l, w.chainId) && WorldOf(l, w.chainId, w) && CanSettle(w, s, k) && s.number + k < |l.finished|
    requires us == Settled(w, s, k)
    ensures |us| == k && AllCarryHandlers(us, l.finished, s.number + 1)
  {
    SettledLength(w, s, k);
    forall i | 0 <= i < k ensures CarriesHandlers(us[i], l.finished, s.number + 1 + i) {
      SettledCarriesHandlers(l, w, s, k, i);
    }
  }

  /** The settled messages to L2 are exactly the executed L1 handlers, in order. */
  lemma {:induction false} HandlersConserved(l: Ledger, w: World, s: L1State, k: nat, us: seq<Update>)
    requires PalletFacts(l, w.chainId) && WorldOf(l, w.chainId, w) && CanSettle(w, s, k) && s.number + k < |l.finished|
    requires us == Settled(w, s, k)
    ensures AreHandlers(UpdatesToL2(us), RecordsIn(l.finished, s.number + 1, s.number + 1 + k))
  {
    SettledAllCarryHandlers(l, w, s, k, us);
    HandlersMatch(us, l.finished, s.number + 1);
  }

  lemma {:induction false} L1NoncesAppend(rs: seq<Record>, rs': seq<Record>)
    ensures L1Nonces(rs + rs') == L1Nonces(rs) + L1Nonces(rs')
    decreases |rs'|
  {
    if rs' == [] {
      assert rs + rs' == rs;
    } else {
      var n := |rs'| - 1;
      L1NoncesAppend(rs, rs'[..n]);
      assert (rs + rs')[..|rs| + n] == rs + rs'[..n];
    }
  }

  lemma {:induction false} ToL2Nonces(rs: seq<Record>)
    requires Convertible(Txs(rs))
    ensures var ms := MessagesToL2(Txs(rs));
            |ms| == |L1Nonces(rs)| && forall i | 0 <= i < |ms| :: ms[i].nonce == L1Nonces(rs)[i]
    decreases |rs|
  {
    if rs != [] {
      var n := |rs| - 1;
      assert Txs(rs)[..n] == Txs(rs[..n]);
      ToL2Nonces(rs[..n]);
    }
  }

  lemma {:induction false} SliceNoncesDistinct(before: seq<Record>, rs: seq<Record>, after: seq<Record>)
    requires Distinct(L1Nonces((before + rs) + after))
    ensures Distinct(L1Nonces(rs))
  {
    L1NoncesAppend(before + rs, after);
    L1NoncesAppend(before, rs);
    var all, p := L1Nonces((before + rs) + after), |L1Nonces(before)|;
    assert forall i | 0 <= i < |L1Nonces(rs)| :: L1Nonces(rs)[i] == all[p + i];
  }

  lemma {:induction false} RecordsAround(l: Ledger, a: nat, b: nat)
    requires a <= b <= |l.finished|
    ensures AllRecords(l) ==
            (RecordsIn(l.finished, 0, a) + RecordsIn(l.finished, a, b))
            + (RecordsIn(l.finished, b, |l.finished|) + l.records)
  {
    var n := |l.finished|;
    RecordsInSplit(l.finished, 0, a, b);
    RecordsInSplit(l.finished, 0, b, n);
    RecordsInPrefix(l.finished, n);
    assert l.finished[..n] == l.finished;
    ConcatAssoc(RecordsIn(l.finished, 0, b), RecordsIn(l.finished, b, n), l.records);
  }

  ghost predicate DistinctNonces(ms: seq<MessageToL2>) {
    forall i, j | 0 <= i < j < |ms| :: ms[i].nonce != ms[j].nonce
  }

  /** No message from L1 is settled twice. */
  lemma {:induction false} SliceHandlersDistinct(l: Ledger, a: nat, b: nat, ms: seq<MessageToL2>)
    requires a <= b <= |l.finished| && Distinct(L1Nonces(AllRecords(l)))
    requires AreHandlers(ms, RecordsIn(l.finished, a, b))
    ensures DistinctNonces(ms)
  {
    RecordsAround(l, a, b);
    SliceNoncesDistinct(RecordsIn(l.finished, 0, a), RecordsIn(l.finished, a, b),
                        RecordsIn(l.finished, b, |l.finished|) + l.records);
    ToL2Nonces(RecordsIn(l.finished, a, b));
  }

  // ---------------------------------------------------------------------------
  // From the genesis state to L1
  // ---------------------------------------------------------------------------

  /** Messages to L1 are conserved exactly when no hash is shared, messages from L1 always are, and
      none of these is settled twice. */
  ghost predicate Conserved(us: seq<Update>, finished: seq<Finished>, a: nat, k: nat)
    requires a + k <= |finished|
  {
    && ConservedExactlyIfUnshared(us, finished, a, k)
    && AreHandlers(UpdatesToL2(us), RecordsIn(finished, a, a + k))
    && DistinctNonces(UpdatesToL2(us))
  }

  /** Every run of the pallet gives the settlement worker a chain with aligned heights, and all that
      is settled from it is conserved. */
  lemma {:induction false} EndToEnd(config: Config, l: Ledger, w: World, s: L1State, k: nat, us: seq<Update>)
    requires Reachable(config, l)
    requires WorldOf(l, config.chainId, w) && CanSettle(w, s, k) && s.number + k < |l.finished|
    requires us == Settled(w, s, k)
    ensures Aligned(w) && Conserved(us, l.finished, s.number + 1, k)
  {
    assert Conserved(us, l.finished, s.number + 1, k) by {
      ReachableMessages(config, l, w, s, k, us);
      ReachableHandlers(config, l, w, s, k, us);
      ReachableDistinct(config, l, s.number + 1, k, UpdatesToL2(us));
    }
    ReachableIsAligned(config, l, w);
  }

  lemma {:induction false} ReachableIsAligned(config: Config, l: Ledger, w: World)
    requires Reachable(config, l) && WorldOf(l, config.chainId, w)
    ensures Aligned(w)
  {
    ReachableInv(config, l);
    PalletChainIsAligned(config, l, w);
  }

  lemma {:induction false} ReachableMessages(config: Config, l: Ledger, w: World, s: L1State, k: nat, us: seq<Update>)
    requires Reachable(config, l)
    requires WorldOf(l, config.chainId, w) && CanSettle(w, s, k) && s.number + k < |l.finished|
    requires us == Settled(w, s, k)
    ensures ConservedExactlyIfUnshared(us, l.finished, s.number + 1, k)
  {
    ReachableFacts(config, l);
    MessagesConserved(l, w, s, k, us);
  }

  lemma {:induction false} ReachableHandlers(config: Config, l: Ledger, w: World, s: L1State, k: nat, us: seq<Update>)
    requires Reachable(config, l)
    requires WorldOf(l, config.chainId, w) && CanSettle(w, s, k) && s.number + k < |l.finished|
    requires us == Settled(w, s, k)
    ensures AreHandlers(UpdatesToL2(us), RecordsIn(l.finished, s.number + 1, s.number + 1 + k))
  {
    ReachableFacts(config, l);
    HandlersConserved(l, w, s, k, us);
  }

  lemma {:induction false} ReachableNonces(config: Config, l: Ledger)
    requires Reachable(config, l)
    ensures Distinct(L1Nonces(AllRecords(l)))
  {
    ReachableInv(config, l);
  }

  lemma {:induction false} ReachableDistinct(config: Config, l: Ledger, a: nat, k: nat, ms: seq<MessageToL2>)
    requires Reachable(config, l) && a + k <= |l.finished| && AreHandlers(ms, RecordsIn(l.finished, a, a + k))
    ensures DistinctNonces(ms)
  {
    ReachableNonces(config, l);
    SliceHandlersDistinct(l, a, a + k, ms);
  }

  lemma {:induction false} ReachableFacts(config: Config, l: Ledger)
    requires Reachable(config, l)
    ensures PalletFacts(l, config.chainId)
  {
    ReachableInv(config, l);
    InvFacts(config, l);
  }

  lemma {:induction false} PalletChainIsAligned(config: Config, l: Ledger, w: World)
    requires Inv(config, l) && WorldOf(l, config.chainId, w)
    ensures Aligned(w)
  {
    forall i | 0 <= i < |w.final| ensures w.final[i].block.header.number == i {
      assert BlockInv(l, i);
    }
  }
}
