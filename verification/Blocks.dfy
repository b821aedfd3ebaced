/** Starknet headers and blocks, and the digest log that embeds a block in a Substrate header. */
module Blocks {
  import opened Felts
  import opened Transactions

  datatype Option<T> = None | Some(value: T)

  datatype Header = Header(
    parentHash: Felt, number: nat, sequencer: Felt, timestamp: nat, transactionCount: nat, eventCount: nat,
    protocolVersion: nat, l1GasPrice: nat, extraData: Option<nat>)

  datatype Block = Block(header: Header, transactions: seq<Transaction>)

  /** `Block::default()`, the block the node puts in the digest of the genesis header. */
  const DEFAULT_BLOCK := Block(Header(ZERO, 0, ZERO, 0, 0, 0, 0, 0, None), [])

  function HeaderHash(h: Header): Felt {
    HashOf([Value(h.number), h.sequencer, Value(h.timestamp), Value(h.transactionCount), Value(h.eventCount),
            Value(h.protocolVersion), ZERO, h.parentHash])
  }

  /** The header hash speaks for neither the gas price, the extra data nor the transactions. */
  lemma {:induction false} HeaderHashCommits(h: Header, h': Header)
    ensures HeaderHash(h) == HeaderHash(h')
            <==> h' == h.(l1GasPrice := h'.l1GasPrice, extraData := h'.extraData)
  {
    var a, b := HeaderHash(h).elements, HeaderHash(h').elements;
    if a == b {
      assert a[0] == b[0] && a[1] == b[1] && a[2] == b[2] && a[3] == b[3];
      assert a[4] == b[4] && a[5] == b[5] && a[7] == b[7];
    }
  }

  function TransactionHashes(block: Block, chainId: Felt): (r: seq<Felt>) {
    seq(|block.transactions|, i requires 0 <= i < |block.transactions| =>
      ComputeHash(block.transactions[i], chainId, false))
  }

  // ---------------------------------------------------------------------------
  // The digest log
  // ---------------------------------------------------------------------------

  datatype DigestItem = MadaraLog(block: Block) | OtherItem

  datatype FindLog = Found(block: Block) | NotLog | MultipleLogs

  function MadaraBlocks(logs: seq<DigestItem>): seq<Block> {
    if logs == [] then []
    else
      var rest := MadaraBlocks(logs[..|logs| - 1]);
      var last := logs[|logs| - 1];
      if last.MadaraLog? then rest + [last.block] else rest
  }

  function FindStarknetBlock(logs: seq<DigestItem>): FindLog {
    var blocks := MadaraBlocks(logs);
    if |blocks| == 0 then NotLog else if |blocks| == 1 then Found(blocks[0]) else MultipleLogs
  }

  lemma {:induction false} OneLog(block: Block)
    ensures FindStarknetBlock([MadaraLog(block)]) == Found(block)
  {
    var logs := [MadaraLog(block)];
    assert logs[..0] == [];
    assert MadaraBlocks(logs) == [block];
  }

  lemma {:induction false} MadaraBlocksGrow(logs: seq<DigestItem>, i: nat)
    requires i <= |logs|
    ensures |MadaraBlocks(logs[..i])| <= |MadaraBlocks(logs)|
    decreases |logs| - i
  {
    if i < |logs| {
      assert logs[..i + 1][..i] == logs[..i];
      MadaraBlocksGrow(logs, i + 1);
    } else {
      assert logs[..i] == logs;
    }
  }

  /** The scan stops with an error at the second Madara log and otherwise returns the only one. */
  method FindLogScan(logs: seq<DigestItem>) returns (r: FindLog)
    ensures r == FindStarknetBlock(logs)
  {
    var found := None;
    for i := 0 to |logs|
      invariant MadaraBlocks(logs[..i]) == if found.Some? then [found.value] else []
    {
      assert logs[..i + 1][..i] == logs[..i];
      if logs[i].MadaraLog? {
        if found.Some? {
          MadaraBlocksGrow(logs, i + 1);
          return MultipleLogs;
        }
        found := Some(logs[i].block);
      }
    }
    assert logs[..|logs|] == logs;
    r := if found.Some? then Found(found.value) else NotLog;
  }
}
