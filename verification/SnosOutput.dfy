/** The program output itself, as an instance of the codec. */
module SnosOutput {
  import opened Snos

  datatype MessageL2ToL1 = MessageL2ToL1(from: nat, to: nat, payload: seq<nat>)

  datatype MessageL1ToL2 = MessageL1ToL2(from: nat, to: nat, nonce: nat, selector: nat, payload: seq<nat>)

  datatype Output = Output(
    prevStateRoot: nat, newStateRoot: nat, blockNumber: nat, blockHash: nat, configHash: nat,
    messagesToL1: seq<MessageL2ToL1>, messagesToL2: seq<MessageL1ToL2>)

  /** Ethereum addresses are 20 bytes wide. */
  ghost predicate Valid(o: Output) {
    forall i | 0 <= i < |o.messagesToL1| :: o.messagesToL1[i].to < ETH_BOUND
  }

  const FELTS := VecShape(FeltShape)
  const L2_TO_L1 := RecordShape([FeltShape, EthShape, FELTS])
  const L1_TO_L2 := RecordShape([FeltShape, FeltShape, FeltShape, FeltShape, FELTS])
  const OUTPUT :=
    RecordShape([FeltShape, FeltShape, FeltShape, FeltShape, FeltShape, VecShape(L2_TO_L1), VecShape(L1_TO_L2)])

  function FeltsValue(fs: seq<nat>): Value {
    VecValue(seq(|fs|, i requires 0 <= i < |fs| => FeltValue(fs[i])))
  }

  function L2ToL1Value(m: MessageL2ToL1): Value {
    RecordValue([FeltValue(m.from), EthValue(m.to), FeltsValue(m.payload)])
  }

  function L1ToL2Value(m: MessageL1ToL2): Value {
    RecordValue([FeltValue(m.from), FeltValue(m.to), FeltValue(m.nonce), FeltValue(m.selector), FeltsValue(m.payload)])
  }

  function OutputValue(o: Output): Value {
    RecordValue([
      FeltValue(o.prevStateRoot), FeltValue(o.newStateRoot), FeltValue(o.blockNumber), FeltValue(o.blockHash),
      FeltValue(o.configHash),
      VecValue(seq(|o.messagesToL1|, i requires 0 <= i < |o.messagesToL1| => L2ToL1Value(o.messagesToL1[i]))),
      VecValue(seq(|o.messagesToL2|, i requires 0 <= i < |o.messagesToL2| => L1ToL2Value(o.messagesToL2[i])))])
  }

  // The way back

  ghost function ValueFelts(v: Value): seq<nat>
    requires HasShape(v, FELTS)
  {
    assert forall i | 0 <= i < |v.elements| :: HasShape(v.elements[i], FeltShape);
    seq(|v.elements|, i requires 0 <= i < |v.elements| => v.elements[i].felt)
  }

  ghost function ValueL2ToL1(v: Value): MessageL2ToL1
    requires HasShape(v, L2_TO_L1)
  {
    var f := v.fields;
    assert HasShape(f[0], FeltShape) && HasShape(f[1], EthShape) && HasShape(f[2], FELTS);
    MessageL2ToL1(f[0].felt, f[1].address, ValueFelts(f[2]))
  }

  ghost function ValueL1ToL2(v: Value): MessageL1ToL2
    requires HasShape(v, L1_TO_L2)
  {
    var f := v.fields;
    assert HasShape(f[0], FeltShape) && HasShape(f[1], FeltShape) && HasShape(f[2], FeltShape);
    assert HasShape(f[3], FeltShape) && HasShape(f[4], FELTS);
    MessageL1ToL2(f[0].felt, f[1].felt, f[2].felt, f[3].felt, ValueFelts(f[4]))
  }

  lemma {:induction false} OutputFieldShapes(v: Value)
    requires HasShape(v, OUTPUT)
    ensures |v.fields| == 7 && (forall i | 0 <= i < 5 :: v.fields[i].FeltValue?)
    ensures HasShape(v.fields[5], VecShape(L2_TO_L1)) && HasShape(v.fields[6], VecShape(L1_TO_L2))
  {
    assert forall i | 0 <= i < 7 :: HasShape(v.fields[i], OUTPUT.fields[i]);
  }

  ghost function ValueOutput(v: Value): Output
    requires HasShape(v, OUTPUT)
  {
    OutputFieldShapes(v);
    var f := v.fields;
    Output(f[0].felt, f[1].felt, f[2].felt, f[3].felt, f[4].felt,
           seq(|f[5].elements|, i requires 0 <= i < |f[5].elements| => ValueL2ToL1(f[5].elements[i])),
           seq(|f[6].elements|, i requires 0 <= i < |f[6].elements| => ValueL1ToL2(f[6].elements[i])))
  }

  lemma {:induction false} MessageValues(m: MessageL2ToL1, m': MessageL1ToL2)
    ensures m.to < ETH_BOUND ==> HasShape(L2ToL1Value(m), L2_TO_L1) && ValueL2ToL1(L2ToL1Value(m)) == m
    ensures HasShape(L1ToL2Value(m'), L1_TO_L2) && ValueL1ToL2(L1ToL2Value(m')) == m'
  {
    assert forall fs: seq<nat> :: ValueFelts(FeltsValue(fs)) == fs;
  }

  lemma {:induction false} ValueMessages(v: Value)
    ensures HasShape(v, L2_TO_L1) ==> L2ToL1Value(ValueL2ToL1(v)) == v && ValueL2ToL1(v).to < ETH_BOUND
    ensures HasShape(v, L1_TO_L2) ==> L1ToL2Value(ValueL1ToL2(v)) == v
  {
    forall w | HasShape(w, FELTS) ensures FeltsValue(ValueFelts(w)) == w {
      assert forall i | 0 <= i < |w.elements| :: HasShape(w.elements[i], FeltShape);
    }
    if HasShape(v, L2_TO_L1) {
      var f := v.fields;
      assert HasShape(f[0], FeltShape) && HasShape(f[1], EthShape) && HasShape(f[2], FELTS);
      assert L2ToL1Value(ValueL2ToL1(v)).fields == f;
    }
    if HasShape(v, L1_TO_L2) {
      var f := v.fields;
      assert HasShape(f[0], FeltShape) && HasShape(f[1], FeltShape) && HasShape(f[2], FeltShape);
      assert HasShape(f[3], FeltShape) && HasShape(f[4], FELTS);
      assert L1ToL2Value(ValueL1ToL2(v)).fields == f;
    }
  }

  lemma {:induction false} OutputShaped(o: Output)
    requires Valid(o)
    ensures HasShape(OutputValue(o), OUTPUT)
    ensures ValueOutput(OutputValue(o)) == o
  {
    var v := OutputValue(o);
    forall i | 0 <= i < |o.messagesToL1|
      ensures HasShape(v.fields[5].elements[i], L2_TO_L1) && ValueL2ToL1(v.fields[5].elements[i]) == o.messagesToL1[i]
    {
      MessageValues(o.messagesToL1[i], MessageL1ToL2(0, 0, 0, 0, []));
    }
    forall i | 0 <= i < |o.messagesToL2|
      ensures HasShape(v.fields[6].elements[i], L1_TO_L2) && ValueL1ToL2(v.fields[6].elements[i]) == o.messagesToL2[i]
    {
      MessageValues(MessageL2ToL1(0, 0, []), o.messagesToL2[i]);
    }
    assert HasShape(v.fields[5], VecShape(L2_TO_L1)) && HasShape(v.fields[6], VecShape(L1_TO_L2));
  }

  lemma {:induction false} ShapedOutput(v: Value)
    requires HasShape(v, OUTPUT)
    ensures Valid(ValueOutput(v)) && OutputValue(ValueOutput(v)) == v
  {
    OutputFieldShapes(v);
    var f := v.fields;
    forall i | 0 <= i < |f[5].elements|
      ensures L2ToL1Value(ValueL2ToL1(f[5].elements[i])) == f[5].elements[i]
      ensures ValueL2ToL1(f[5].elements[i]).to < ETH_BOUND
    {
      ValueMessages(f[5].elements[i]);
    }
    forall i | 0 <= i < |f[6].elements| ensures L1ToL2Value(ValueL1ToL2(f[6].elements[i])) == f[6].elements[i] {
      ValueMessages(f[6].elements[i]);
    }
    var o := ValueOutput(v);
    assert OutputValue(o).fields[5].elements == f[5].elements;
    assert OutputValue(o).fields[6].elements == f[6].elements;
    assert OutputValue(o).fields == f;
  }

  lemma {:induction false} OutputProductive()
    ensures Productive(OUTPUT)
  {
    assert Productive(FELTS) && Productive(FeltShape) && Productive(EthShape);
    assert forall f | f in L2_TO_L1.fields :: f == FeltShape || f == EthShape || f == FELTS;
    assert forall f | f in L1_TO_L2.fields :: f == FeltShape || f == FELTS;
    assert Productive(VecShape(L2_TO_L1)) && Productive(VecShape(L1_TO_L2));
    assert forall f | f in OUTPUT.fields :: f == FeltShape || f == VecShape(L2_TO_L1) || f == VecShape(L1_TO_L2);
  }

  function EncodeOutput(o: Output): seq<nat> {
    Encode(OutputValue(o))
  }

  ghost function DecodeOutput(data: Slice): Result<Output> {
    OutputProductive();
    match Decode(OUTPUT, data, 0)
    case Err(e) => Err(e)
    case Ok(v, next) => EncodeDecoded(OUTPUT, data, 0); Ok(ValueOutput(v), next)
  }

  /** A felt array decodes to a program output exactly when it starts with that output's encoding,
      and the cursor then stands right behind it. */
  lemma {:induction false} OutputRoundTrip(o: Output, data: Slice)
    ensures Valid(o) && At(data, 0, EncodeOutput(o)) <==> DecodeOutput(data) == Ok(o, |EncodeOutput(o)|)
  {
    OutputProductive();
    DecodesExactlyEncodings(OUTPUT, data, 0, OutputValue(o));
    if Valid(o) {
      OutputShaped(o);
    }
    if DecodeOutput(data) == Ok(o, |EncodeOutput(o)|) {
      EncodeDecoded(OUTPUT, data, 0);
      ShapedOutput(Decode(OUTPUT, data, 0).value);
    }
  }
}
