/** The seven transaction shapes and their hashes. */
module Transactions {
  import opened Felts

  datatype Transaction =
    | InvokeV0(maxFee: nat, signature: seq<Felt>, contract: Felt, selector: Felt, calldata: seq<Felt>)
    | InvokeV1(maxFee: nat, signature: seq<Felt>, nonce: nat, sender: Felt, calldata: seq<Felt>, offsetVersion: bool)
    | DeclareV0(maxFee: nat, signature: seq<Felt>, nonce: nat, classHash: Felt, sender: Felt)
    | DeclareV1(maxFee: nat, signature: seq<Felt>, nonce: nat, classHash: Felt, sender: Felt, offsetVersion: bool)
    | DeclareV2(maxFee: nat, signature: seq<Felt>, nonce: nat, classHash: Felt, sender: Felt,
                compiledClassHash: Felt, offsetVersion: bool)
    | DeployAccount(maxFee: nat, signature: seq<Felt>, nonce: nat, salt: Felt, calldata: seq<Felt>,
                    classHash: Felt, offsetVersion: bool)
    | L1Handler(nonce: nat, contract: Felt, selector: Felt, calldata: seq<Felt>)

  // The ASCII prefixes read as big-endian numbers.
  const INVOKE_PREFIX := Value(0x696e766f6b65)
  const DECLARE_PREFIX := Value(0x6465636c617265)
  const DEPLOY_ACCOUNT_PREFIX := Value(0x6465706c6f795f6163636f756e74)
  const L1_HANDLER_PREFIX := Value(0x6c315f68616e646c6572)
  const CONTRACT_ADDRESS_PREFIX := Value(0x535441524b4e45545f434f4e54524143545f41444452455353)
  const SIMULATE_TX_VERSION_OFFSET: nat := 0x100000000000000000000000000000000

  function Version(tx: Transaction): nat {
    match tx
    case InvokeV0(_, _, _, _, _) => 0
    case InvokeV1(_, _, _, _, _, _) => 1
    case DeclareV0(_, _, _, _, _) => 0
    case DeclareV1(_, _, _, _, _, _) => 1
    case DeclareV2(_, _, _, _, _, _, _) => 2
    case DeployAccount(_, _, _, _, _, _, _) => 1
    case L1Handler(_, _, _, _) => 0
  }

  function VersionFelt(tx: Transaction, offsetVersion: bool): Felt {
    Value(if offsetVersion then SIMULATE_TX_VERSION_OFFSET + Version(tx) else Version(tx))
  }

  function AccountAddress(salt: Felt, classHash: Felt, calldata: seq<Felt>): Felt {
    Reduced(HashOf([CONTRACT_ADDRESS_PREFIX, ZERO, salt, classHash, HashOf(calldata)]))
  }

  /** The account a user transaction acts for; the called contract for an L1 handler. */
  function Sender(tx: Transaction): Felt {
    match tx
    case InvokeV0(_, _, contract, _, _) => contract
    case DeployAccount(_, _, _, salt, calldata, classHash, _) => AccountAddress(salt, classHash, calldata)
    case L1Handler(_, contract, _, _) => contract
    case _ => tx.sender
  }

  function ComputeHash(tx: Transaction, chainId: Felt, offsetVersion: bool): Felt {
    var version := VersionFelt(tx, offsetVersion);
    match tx
    case InvokeV0(maxFee, _, contract, selector, calldata) =>
      HashOf([INVOKE_PREFIX, version, contract, selector, HashOf(calldata), Value(maxFee), chainId])
    case InvokeV1(maxFee, _, nonce, sender, calldata, _) =>
      HashOf([INVOKE_PREFIX, version, sender, ZERO, HashOf(calldata), Value(maxFee), chainId, Value(nonce)])
    case DeclareV0(maxFee, _, _, classHash, sender) =>
      HashOf([DECLARE_PREFIX, version, sender, ZERO, HashOf([]), Value(maxFee), chainId, classHash])
    case DeclareV1(maxFee, _, nonce, classHash, sender, _) =>
      HashOf([DECLARE_PREFIX, version, sender, ZERO, HashOf([classHash]), Value(maxFee), chainId, Value(nonce)])
    case DeclareV2(maxFee, _, nonce, classHash, sender, compiledClassHash, _) =>
      HashOf([DECLARE_PREFIX, version, sender, ZERO, HashOf([classHash]), Value(maxFee), chainId, Value(nonce),
              compiledClassHash])
    case DeployAccount(maxFee, _, nonce, salt, calldata, classHash, _) =>
      HashOf([DEPLOY_ACCOUNT_PREFIX, version, AccountAddress(salt, classHash, calldata), ZERO,
              HashOf([classHash, salt] + calldata), Value(maxFee), chainId, Value(nonce)])
    case L1Handler(nonce, contract, selector, calldata) =>
      HashOf([L1_HANDLER_PREFIX, version, contract, selector, HashOf(calldata), chainId, Value(nonce)])
  }

  /** The part of a transaction its hash speaks for: everything but the signature, the stored
      offset flag and the nonce of a version 0 declaration. */
  function Committed(tx: Transaction): Transaction {
    match tx
    case InvokeV0(maxFee, _, contract, selector, calldata) => InvokeV0(maxFee, [], contract, selector, calldata)
    case InvokeV1(maxFee, _, nonce, sender, calldata, _) => InvokeV1(maxFee, [], nonce, sender, calldata, false)
    case DeclareV0(maxFee, _, _, classHash, sender) => DeclareV0(maxFee, [], 0, classHash, sender)
    case DeclareV1(maxFee, _, nonce, classHash, sender, _) => DeclareV1(maxFee, [], nonce, classHash, sender, false)
    case DeclareV2(maxFee, _, nonce, classHash, sender, compiled, _) =>
      DeclareV2(maxFee, [], nonce, classHash, sender, compiled, false)
    case DeployAccount(maxFee, _, nonce, salt, calldata, classHash, _) =>
      DeployAccount(maxFee, [], nonce, salt, calldata, classHash, false)
    case L1Handler(_, _, _, _) => tx
  }

  /** The place of a transaction among the seven shapes. */
  function Shape(tx: Transaction): nat {
    match tx
    case InvokeV0(_, _, _, _, _) => 0
    case InvokeV1(_, _, _, _, _, _) => 1
    case DeclareV0(_, _, _, _, _) => 2
    case DeclareV1(_, _, _, _, _, _) => 3
    case DeclareV2(_, _, _, _, _, _, _) => 4
    case DeployAccount(_, _, _, _, _, _, _) => 5
    case L1Handler(_, _, _, _) => 6
  }

  lemma {:induction false} HashTellsShape(tx: Transaction, chainId: Felt, offset: bool, tx': Transaction,
                                          chainId': Felt, offset': bool)
    requires ComputeHash(tx, chainId, offset) == ComputeHash(tx', chainId', offset')
    ensures Shape(tx) == Shape(tx') && offset == offset'
  {
    var a, b := ComputeHash(tx, chainId, offset).elements, ComputeHash(tx', chainId', offset').elements;
    assert a[0] == b[0] && a[1] == b[1] && a[4] == b[4];
  }

  lemma {:induction false} SameShapeCommits(tx: Transaction, chainId: Felt, offset: bool, tx': Transaction,
                                            chainId': Felt)
    requires Shape(tx) == Shape(tx') && ComputeHash(tx, chainId, offset) == ComputeHash(tx', chainId', offset)
    ensures Committed(tx) == Committed(tx') && chainId == chainId'
  {
    var a, b := ComputeHash(tx, chainId, offset).elements, ComputeHash(tx', chainId', offset).elements;
    assert a[2] == b[2] && a[3] == b[3] && a[4] == b[4] && a[5] == b[5] && a[6] == b[6];
    assert |a| > 7 ==> a[7] == b[7];
  }

  lemma {:induction false} CommittedIsHashed(tx: Transaction, chainId: Felt, offset: bool)
    ensures ComputeHash(tx, chainId, offset) == ComputeHash(Committed(tx), chainId, offset)
  {
  }

  /** Two hashes agree exactly when the transactions, the chain and the offset flag do. */
  lemma {:induction false} HashCommits(tx: Transaction, chainId: Felt, offset: bool, tx': Transaction, chainId': Felt,
                                       offset': bool)
    ensures ComputeHash(tx, chainId, offset) == ComputeHash(tx', chainId', offset')
            <==> Committed(tx) == Committed(tx') && chainId == chainId' && offset == offset'
  {
    if ComputeHash(tx, chainId, offset) == ComputeHash(tx', chainId', offset') {
      HashTellsShape(tx, chainId, offset, tx', chainId', offset');
      SameShapeCommits(tx, chainId, offset, tx', chainId');
    }
    CommittedIsHashed(tx, chainId, offset);
    CommittedIsHashed(tx', chainId', offset');
  }
}
