/**
 The conversion of executed calls into RPC traces.  A call that does not carry its class hash has
 it looked up in storage; the lookups are remembered in a cache shared by all calls of a
 transaction.
 */
module Trace {
  import opened Felts
  import opened Blocks

  /** The fields of a call that are copied into the trace; events and messages depend on the call
      alone as well and stand in `rest`. */
  datatype Body = Body(caller: Felt, selector: Felt, calldata: seq<Felt>, result: seq<Felt>, rest: seq<Felt>)

  datatype CallNode = CallNode(
    address: Felt,
    classHash: Option<Felt>,
    messagesSortable: bool,  // the messages of the call and of those below it are numbered without a gap
    body: Body,
    inner: seq<CallNode>)

  datatype Invocation = Invocation(address: Felt, classHash: Felt, body: Body, calls: seq<Invocation>)

  datatype Error = ContractNotFound | TransactionExecution | Panic

  datatype Result<+T> = Ok(value: T) | Err(error: Error)

  /** The class hashes in storage at the block the trace is made for. */
  type ClassHashes = map<Felt, Felt>

  // ---------------------------------------------------------------------------
  // The conversion without a cache
  // ---------------------------------------------------------------------------

  function Lookup(storage: ClassHashes, c: CallNode): Result<Felt> {
    if c.classHash.Some? then Ok(c.classHash.value)
    else if c.address in storage then Ok(storage[c.address])
    else Err(ContractNotFound)
  }

  function Plain(storage: ClassHashes, c: CallNode): Result<Invocation>
    decreases c
  {
    match PlainAll(storage, c.inner)
    case Err(e) => Err(e)
    case Ok(calls) =>
      if !c.messagesSortable then Err(TransactionExecution)
      else
        match Lookup(storage, c)
        case Err(e) => Err(e)
        case Ok(classHash) => Ok(Invocation(c.address, classHash, c.body, calls))
  }

  /** Converts calls in order and stops at the first error. */
  function PlainAll(storage: ClassHashes, cs: seq<CallNode>): Result<seq<Invocation>>
    decreases cs
  {
    if cs == [] then Ok([])
    else
      match Plain(storage, cs[0])
      case Err(e) => Err(e)
      case Ok(call) =>
        match PlainAll(storage, cs[1..])
        case Err(e) => Err(e)
        case Ok(calls) => Ok([call] + calls)
  }

  // ---------------------------------------------------------------------------
  // The conversion with a cache
  // ---------------------------------------------------------------------------

  class Cache {
    var entries: map<Felt, Felt>
    ghost var lookups: seq<Felt>  // the addresses read from storage so far

    constructor ()
      ensures entries == map[] && lookups == []
    {
      entries, lookups := map[], [];
    }

    /** Every entry is what storage holds, and nothing was read from storage twice. */
    ghost predicate Faithful(storage: ClassHashes)
      reads this
    {
      && (forall a | a in entries :: a in storage && entries[a] == storage[a])
      && (forall a :: a in lookups ==> a in entries)
      && (forall i, j | 0 <= i < j < |lookups| :: lookups[i] != lookups[j])
    }

    method ClassHashOf(storage: ClassHashes, c: CallNode) returns (r: Result<Felt>)
      requires Faithful(storage)
      modifies this
      ensures Faithful(storage) && r == Lookup(storage, c)
    {
      if c.classHash.Some? {
        return Ok(c.classHash.value);
      }
      if c.address in entries {
        return Ok(entries[c.address]);
      }
      if c.address !in storage {
        return Err(ContractNotFound);
      }
      var computed := storage[c.address];
      entries := entries[c.address := computed];
      lookups := lookups + [c.address];
      return Ok(computed);
    }

    /** For every call tree and every cache filled by earlier calls the result, value or error, is
        that of the conversion without a cache. */
    method Convert(storage: ClassHashes, c: CallNode) returns (r: Result<Invocation>)
      requires Faithful(storage)
      modifies this
      ensures Faithful(storage) && r == Plain(storage, c)
      decreases c
    {
      var calls: seq<Invocation> := [];
      assert c.inner[0..] == c.inner;
      ghost var all := PlainAll(storage, c.inner);
      assert all.Ok? ==> calls + all.value == all.value;
      for i := 0 to |c.inner|
        invariant Faithful(storage)
        invariant Prepend(calls, PlainAll(storage, c.inner[i..])) == PlainAll(storage, c.inner)
      {
        assert c.inner[i..][0] == c.inner[i] && c.inner[i..][1..] == c.inner[i + 1..];
        var call := Convert(storage, c.inner[i]);
        if call.Err? {
          return Err(call.error);
        }
        ghost var tail := PlainAll(storage, c.inner[i + 1..]);
        assert tail.Ok? ==> calls + ([call.value] + tail.value) == (calls + [call.value]) + tail.value;
        calls := calls + [call.value];
      }
      assert calls + [] == calls;
      if !c.messagesSortable {
        return Err(TransactionExecution);
      }
      var classHash := ClassHashOf(storage, c);
      if classHash.Err? {
        return Err(classHash.error);
      }
      return Ok(Invocation(c.address, classHash.value, c.body, calls));
    }

    method ConvertOptional(storage: ClassHashes, c: Option<CallNode>) returns (r: Result<Option<Invocation>>)
      requires Faithful(storage)
      modifies this
      ensures Faithful(storage) && r == PlainOptional(storage, c)
    {
      if c.None? {
        return Ok(None);
      }
      var call := Convert(storage, c.value);
      r := if call.Ok? then Ok(Some(call.value)) else Err(call.error);
    }
  }

  ghost function Prepend(calls: seq<Invocation>, r: Result<seq<Invocation>>): Result<seq<Invocation>> {
    if r.Ok? then Ok(calls + r.value) else r
  }

  // ---------------------------------------------------------------------------
  // The trace of a transaction
  // ---------------------------------------------------------------------------

  datatype TxType = Invoke | Declare | DeployAccount | L1Handler

  datatype ExecutionInfo = ExecutionInfo(
    validateCall: Option<CallNode>, executeCall: Option<CallNode>, feeCall: Option<CallNode>,
    revertError: Option<string>)

  datatype TxTrace =
    | InvokeTrace(validate: Option<Invocation>, execute: Invocation, fee: Option<Invocation>)
    | RevertedTrace(validate: Option<Invocation>, reason: string, fee: Option<Invocation>)
    | DeclareTrace(validate: Option<Invocation>, fee: Option<Invocation>)
    | DeployAccountTrace(validate: Option<Invocation>, constructorCall: Invocation, fee: Option<Invocation>)
    | L1HandlerTrace(handler: Invocation)

  function PlainOptional(storage: ClassHashes, c: Option<CallNode>): Result<Option<Invocation>> {
    if c.None? then Ok(None)
    else
      match Plain(storage, c.value)
      case Err(e) => Err(e)
      case Ok(call) => Ok(Some(call))
  }

  /** The call that must be there unless the transaction is a declaration. */
  function PlainExecute(storage: ClassHashes, info: ExecutionInfo): Result<Invocation> {
    if info.executeCall.None? then Err(Panic) else Plain(storage, info.executeCall.value)
  }

  function BuildTrace(txType: TxType, validate: Option<Invocation>, fee: Option<Invocation>, execute: Invocation)
    : TxTrace
    requires !txType.Declare?
  {
    match txType
    case Invoke => InvokeTrace(validate, execute, fee)
    case DeployAccount => DeployAccountTrace(validate, execute, fee)
    case L1Handler => L1HandlerTrace(execute)
  }

  function PlainTrace(storage: ClassHashes, txType: TxType, info: ExecutionInfo): Result<TxTrace> {
    match PlainOptional(storage, info.validateCall)
    case Err(e) => Err(e)
    case Ok(validate) =>
      match PlainOptional(storage, info.feeCall)
      case Err(e) => Err(e)
      case Ok(fee) =>
        if txType.Declare? then Ok(DeclareTrace(validate, fee))
        else if txType.Invoke? && info.revertError.Some? then
          Ok(RevertedTrace(validate, info.revertError.value, fee))
        else
          match PlainExecute(storage, info)
          case Err(e) => Err(e)
          case Ok(execute) => Ok(BuildTrace(txType, validate, fee, execute))
  }

  /** One cache serves the validation, the fee transfer and the execution; the trace is the same as
      without it. */
  method TransactionTrace(storage: ClassHashes, txType: TxType, info: ExecutionInfo) returns (r: Result<TxTrace>)
    ensures r == PlainTrace(storage, txType, info)
  {
    var cache := new Cache();
    var validate := cache.ConvertOptional(storage, info.validateCall);
    if validate.Err? {
      return Err(validate.error);
    }
    var fee := cache.ConvertOptional(storage, info.feeCall);
    if fee.Err? {
      return Err(fee.error);
    }
    if txType.Declare? {
      return Ok(DeclareTrace(validate.value, fee.value));
    }
    if txType.Invoke? && info.revertError.Some? {
      return Ok(RevertedTrace(validate.value, info.revertError.value, fee.value));
    }
    if info.executeCall.None? {
      return Err(Panic);
    }
    var execute := cache.Convert(storage, info.executeCall.value);
    if execute.Err? {
      return Err(execute.error);
    }
    match txType {
      case Invoke => return Ok(InvokeTrace(validate.value, execute.value, fee.value));
      case DeployAccount => return Ok(DeployAccountTrace(validate.value, execute.value, fee.value));
      case L1Handler => return Ok(L1HandlerTrace(execute.value));
    }
  }

  // ---------------------------------------------------------------------------
  // Failures
  // ---------------------------------------------------------------------------

  /** The class hash of every call of the tree is carried or found, and no call has a gap in the
      numbering of its messages. */
  ghost predicate Resolvable(storage: ClassHashes, c: CallNode)
    decreases c
  {
    && c.messagesSortable && (c.classHash.Some? || c.address in storage)
    && forall i | 0 <= i < |c.inner| :: Resolvable(storage, c.inner[i])
  }

  /** A call tree converts exactly when every class hash in it is carried or found, and the trace
      then follows the tree node by node. */
  lemma {:induction false} ConvertsWhenResolvable(storage: ClassHashes, c: CallNode)
    ensures Plain(storage, c).Ok? <==> Resolvable(storage, c)
    ensures Plain(storage, c).Ok? ==> TraceOf(storage, c, Plain(storage, c).value)
    decreases c
  {
    ListConvertsWhenResolvable(storage, c.inner);
  }

  lemma {:induction false} ListConvertsWhenResolvable(storage: ClassHashes, cs: seq<CallNode>)
    ensures PlainAll(storage, cs).Ok? <==> forall i | 0 <= i < |cs| :: Resolvable(storage, cs[i])
    ensures PlainAll(storage, cs).Ok? ==>
              var calls := PlainAll(storage, cs).value;
              |calls| == |cs| && forall i | 0 <= i < |cs| :: TraceOf(storage, cs[i], calls[i])
    decreases cs
  {
    if cs != [] {
      ConvertsWhenResolvable(storage, cs[0]);
      ListConvertsWhenResolvable(storage, cs[1..]);
      assert forall i | 0 < i < |cs| :: cs[i] == cs[1..][i - 1];
    }
  }

  /** The trace has the shape of the call tree, and each class hash in it is the carried one or the
      one in storage. */
  ghost predicate TraceOf(storage: ClassHashes, c: CallNode, call: Invocation)
    decreases c
  {
    && call.address == c.address && call.body == c.body && |call.calls| == |c.inner|
    && (c.classHash.Some? ==> call.classHash == c.classHash.value)
    && (c.classHash.None? ==> c.address in storage && call.classHash == storage[c.address])
    && forall i | 0 <= i < |c.inner| :: TraceOf(storage, c.inner[i], call.calls[i])
  }
}
