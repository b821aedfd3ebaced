/**
 The codec of the Starknet OS program output.

 Every type that implements the codec is described by its shape: a felt (also a contract
 address or a nonce), an Ethereum address, a length-prefixed list, or a record of fields.  The
 laws below are proved for every shape, so for lists nested to any depth.
 */
module Snos {
  import opened Basics

  const ETH_BOUND: nat := 0x1_0000000000_0000000000_0000000000_0000000000

  /** A slice of felts; its length fits in 64 bits. */
  type Slice = s: seq<nat> | |s| < U64_BOUND

  datatype Shape = FeltShape | EthShape | VecShape(element: Shape) | RecordShape(fields: seq<Shape>)

  datatype Value =
    | FeltValue(felt: nat)
    | EthValue(address: nat)
    | VecValue(elements: seq<Value>)
    | RecordValue(fields: seq<Value>)

  /** Every shape in the source reads at least one felt; this rules out empty records. */
  predicate Productive(s: Shape) {
    match s
    case FeltShape => true
    case EthShape => true
    case VecShape(element) => Productive(element)
    case RecordShape(fields) => fields != [] && forall f | f in fields :: Productive(f)
  }

  ghost predicate HasShape(v: Value, s: Shape)
    decreases v
  {
    match (v, s)
    case (FeltValue(_), FeltShape) => true
    case (EthValue(a), EthShape) => a < ETH_BOUND
    case (VecValue(vs), VecShape(e)) => forall i | 0 <= i < |vs| :: HasShape(vs[i], e)
    case (RecordValue(vs), RecordShape(fs)) => |vs| == |fs| && forall i | 0 <= i < |vs| :: HasShape(vs[i], fs[i])
    case _ => false
  }

  // ---------------------------------------------------------------------------
  // Encoding and decoding as functions
  // ---------------------------------------------------------------------------

  function Encode(v: Value): seq<nat>
    decreases v
  {
    match v
    case FeltValue(f) => [f]
    case EthValue(a) => [a]
    case VecValue(vs) => [|EncodeAll(vs)|] + EncodeAll(vs)
    case RecordValue(vs) => EncodeAll(vs)
  }

  function EncodeAll(vs: seq<Value>): seq<nat>
    decreases vs
  {
    if vs == [] then [] else Encode(vs[0]) + EncodeAll(vs[1..])
  }

  datatype Error =
    | OutOfBounds
    | InvalidCast
    | Panic  // a slice whose end lies before its start

  datatype Result<+T> = Ok(value: T, offset: nat) | Err(error: Error)

  function ReadFelt(data: Slice, offset: nat): Result<nat> {
    if offset >= |data| then Err(OutOfBounds) else Ok(data[offset], offset + 1)
  }

  /** Addition of two 64-bit numbers without an overflow check. */
  function WrappingAdd(a: nat, b: nat): nat {
    (a + b) % U64_BOUND
  }

  function Segment(data: Slice, offset: nat): Result<Slice> {
    match ReadFelt(data, offset)
    case Err(e) => Err(e)
    case Ok(size, start) =>
      if size >= U64_BOUND then Err(InvalidCast)
      else
        var end := WrappingAdd(start, size);
        if end > |data| then Err(OutOfBounds)
        else if end < start then Err(Panic)
        else Ok(data[start..end], end)
  }

  function Decode(s: Shape, data: Slice, offset: nat): (r: Result<Value>)
    requires Productive(s)
    ensures r.Ok? ==> offset < r.offset <= |data|
    decreases s, 0
  {
    match s
    case FeltShape =>
      (match ReadFelt(data, offset)
       case Err(e) => Err(e)
       case Ok(f, next) => Ok(FeltValue(f), next))
    case EthShape =>
      (match ReadFelt(data, offset)
       case Err(e) => Err(e)
       case Ok(f, next) => if f < ETH_BOUND then Ok(EthValue(f), next) else Err(InvalidCast))
    case VecShape(element) =>
      (match Segment(data, offset)
       case Err(e) => Err(e)
       case Ok(segment, next) =>
         match DecodeList(element, segment, 0)
         case Err(e) => Err(e)
         case Ok(vs, _) => Ok(VecValue(vs), next))
    case RecordShape(fields) =>
      (match DecodeFields(fields, data, offset)
       case Err(e) => Err(e)
       case Ok(vs, next) => Ok(RecordValue(vs), next))
  }

  /** Decodes elements until the segment is used up. */
  function DecodeList(element: Shape, segment: Slice, offset: nat): (r: Result<seq<Value>>)
    requires Productive(element)
    decreases element, 1, |segment| - offset
  {
    if offset >= |segment| then Ok([], offset)
    else
      match Decode(element, segment, offset)
      case Err(e) => Err(e)
      case Ok(v, next) =>
        match DecodeList(element, segment, next)
        case Err(e) => Err(e)
        case Ok(vs, end) => Ok([v] + vs, end)
  }

  function DecodeFields(fields: seq<Shape>, data: Slice, offset: nat): (r: Result<seq<Value>>)
    requires forall f | f in fields :: Productive(f)
    ensures r.Ok? && fields != [] ==> offset < r.offset <= |data|
    decreases fields, 0
  {
    if fields == [] then Ok([], offset)
    else
      match Decode(fields[0], data, offset)
      case Err(e) => Err(e)
      case Ok(v, next) =>
        match DecodeFields(fields[1..], data, next)
        case Err(e) => Err(e)
        case Ok(vs, end) => Ok([v] + vs, end)
  }

  // ---------------------------------------------------------------------------
  // Decoding undoes encoding
  // ---------------------------------------------------------------------------

  ghost predicate At(data: Slice, offset: nat, piece: seq<nat>) {
    offset + |piece| <= |data| && data[offset..offset + |piece|] == piece
  }

  lemma {:induction false} AtSplit(data: Slice, offset: nat, a: seq<nat>, b: seq<nat>)
    requires At(data, offset, a + b)
    ensures At(data, offset, a) && At(data, offset + |a|, b)
  {
    assert data[offset..offset + |a + b|][..|a|] == a;
    assert data[offset..offset + |a + b|][|a|..] == b;
  }

  lemma {:induction false} OneAt(data: Slice, offset: nat)
    requires offset < |data|
    ensures At(data, offset, [data[offset]])
  {
  }

  lemma {:induction false} AtJoin(data: Slice, offset: nat, a: seq<nat>, b: seq<nat>)
    requires At(data, offset, a) && At(data, offset + |a|, b)
    ensures At(data, offset, a + b)
  {
    var end := offset + |a| + |b|;
    assert data[offset..end] == data[offset..offset + |a|] + data[offset + |a|..end];
  }

  lemma {:induction false} EncodingNotEmpty(v: Value, s: Shape)
    requires HasShape(v, s) && Productive(s)
    ensures |Encode(v)| >= 1
    decreases v
  {
    if v.RecordValue? {
      EncodingNotEmpty(v.fields[0], s.fields[0]);
    }
  }

  /** The decoder returns the encoded value and stops right behind it, whatever follows. */
  lemma {:induction false} DecodeEncoded(v: Value, s: Shape, data: Slice, offset: nat)
    requires HasShape(v, s) && Productive(s) && At(data, offset, Encode(v))
    ensures Decode(s, data, offset) == Ok(v, offset + |Encode(v)|)
    decreases v
  {
    match s {
      case FeltShape => assert data[offset] == data[offset..offset + 1][0];
      case EthShape => assert data[offset] == data[offset..offset + 1][0];
      case VecShape(element) =>
        var body := EncodeAll(v.elements);
        AtSplit(data, offset, [|body|], body);
        assert data[offset] == data[offset..offset + 1][0];
        SegmentPanicsOnOverflow(data, offset);
        assert Segment(data, offset) == Ok(body, offset + 1 + |body|);
        assert body[0..] == body;
        DecodeListEncoded(v.elements, element, body, 0);
      case RecordShape(fields) =>
        DecodeFieldsEncoded(v.fields, fields, data, offset);
    }
  }

  lemma {:induction false} SuffixSplit(segment: Slice, offset: nat, a: seq<nat>, b: seq<nat>)
    requires offset <= |segment| && segment[offset..] == a + b
    ensures At(segment, offset, a) && offset + |a| <= |segment| && segment[offset + |a|..] == b
  {
    assert segment[offset..] == segment[offset..offset + |a + b|];
    AtSplit(segment, offset, a, b);
  }

  lemma {:induction false} DecodeListEncoded(vs: seq<Value>, element: Shape, segment: Slice, offset: nat)
    requires Productive(element) && forall i | 0 <= i < |vs| :: HasShape(vs[i], element)
    requires offset <= |segment| && segment[offset..] == EncodeAll(vs)
    ensures DecodeList(element, segment, offset) == Ok(vs, |segment|)
    decreases vs
  {
    if vs != [] {
      var first := Encode(vs[0]);
      EncodingNotEmpty(vs[0], element);
      SuffixSplit(segment, offset, first, EncodeAll(vs[1..]));
      DecodeEncoded(vs[0], element, segment, offset);
      DecodeListEncoded(vs[1..], element, segment, offset + |first|);
      assert vs == [vs[0]] + vs[1..];
    }
  }

  lemma {:induction false} DecodeFieldsEncoded(vs: seq<Value>, fields: seq<Shape>, data: Slice, offset: nat)
    requires |vs| == |fields| && forall i | 0 <= i < |vs| :: HasShape(vs[i], fields[i])
    requires (forall f | f in fields :: Productive(f)) && At(data, offset, EncodeAll(vs))
    ensures DecodeFields(fields, data, offset) == Ok(vs, offset + |EncodeAll(vs)|)
    decreases vs
  {
    if vs != [] {
      AtSplit(data, offset, Encode(vs[0]), EncodeAll(vs[1..]));
      DecodeEncoded(vs[0], fields[0], data, offset);
      DecodeFieldsEncoded(vs[1..], fields[1..], data, offset + |Encode(vs[0])|);
      DecodeFieldsNext(vs, fields, data, offset);
    }
  }

  lemma {:induction false} DecodeFieldsNext(vs: seq<Value>, fields: seq<Shape>, data: Slice, offset: nat)
    requires vs != [] && fields != [] && forall f | f in fields :: Productive(f)
    requires var next := offset + |Encode(vs[0])|;
             && Decode(fields[0], data, offset) == Ok(vs[0], next)
             && DecodeFields(fields[1..], data, next) == Ok(vs[1..], next + |EncodeAll(vs[1..])|)
    ensures DecodeFields(fields, data, offset) == Ok(vs, offset + |EncodeAll(vs)|)
  {
    assert vs == [vs[0]] + vs[1..];
  }

  // ---------------------------------------------------------------------------
  // Encoding undoes decoding
  // ---------------------------------------------------------------------------

  /** Whatever decodes has the shape asked for and encodes back to exactly the felts consumed. */
  lemma {:induction false} EncodeDecoded(s: Shape, data: Slice, offset: nat)
    requires Productive(s) && Decode(s, data, offset).Ok?
    ensures var r := Decode(s, data, offset);
            HasShape(r.value, s) && At(data, offset, Encode(r.value)) && r.offset == offset + |Encode(r.value)|
    decreases s, 0
  {
    match s {
      case FeltShape => OneAt(data, offset);
      case EthShape => OneAt(data, offset);
      case VecShape(element) =>
        var segment := Segment(data, offset).value;
        SegmentPanicsOnOverflow(data, offset);
        EncodeDecodedList(element, segment, 0);
        assert segment[0..] == segment;
        assert data[offset..offset + 1 + |segment|] == [data[offset]] + segment;
      case RecordShape(fields) =>
        EncodeDecodedFields(fields, data, offset);
    }
  }

  lemma {:induction false} EncodeDecodedList(element: Shape, segment: Slice, offset: nat)
    requires Productive(element) && offset <= |segment| && DecodeList(element, segment, offset).Ok?
    ensures var vs := DecodeList(element, segment, offset).value;
            (forall i | 0 <= i < |vs| :: HasShape(vs[i], element)) && EncodeAll(vs) == segment[offset..]
    decreases element, 1, |segment| - offset
  {
    if offset < |segment| {
      EncodeDecoded(element, segment, offset);
      var next := Decode(element, segment, offset).offset;
      EncodeDecodedList(element, segment, next);
      assert segment[offset..] == segment[offset..next] + segment[next..];
    }
  }

  lemma {:induction false} EncodeDecodedFields(fields: seq<Shape>, data: Slice, offset: nat)
    requires (forall f | f in fields :: Productive(f)) && DecodeFields(fields, data, offset).Ok?
    requires offset <= |data|
    ensures var r := DecodeFields(fields, data, offset);
            && |r.value| == |fields| && (forall i | 0 <= i < |r.value| :: HasShape(r.value[i], fields[i]))
            && At(data, offset, EncodeAll(r.value)) && r.offset == offset + |EncodeAll(r.value)|
    decreases fields, 0
  {
    if fields != [] {
      EncodeDecoded(fields[0], data, offset);
      var r := Decode(fields[0], data, offset);
      EncodeDecodedFields(fields[1..], data, r.offset);
      var rest := DecodeFields(fields[1..], data, r.offset);
      AtJoin(data, offset, Encode(r.value), EncodeAll(rest.value));
      EncodeAllCons(r.value, rest.value);
    }
  }

  lemma {:induction false} EncodeAllCons(v: Value, vs: seq<Value>)
    ensures EncodeAll([v] + vs) == Encode(v) + EncodeAll(vs)
  {
    assert ([v] + vs)[1..] == vs;
  }

  /** Decoding succeeds exactly on the inputs that hold an encoding at the cursor, and then that
      encoding is the only one there. */
  lemma {:induction false} DecodesExactlyEncodings(s: Shape, data: Slice, offset: nat, v: Value)
    requires Productive(s)
    ensures HasShape(v, s) && At(data, offset, Encode(v)) <==>
            Decode(s, data, offset) == Ok(v, offset + |Encode(v)|)
  {
    if HasShape(v, s) && At(data, offset, Encode(v)) {
      DecodeEncoded(v, s, data, offset);
    }
    if Decode(s, data, offset) == Ok(v, offset + |Encode(v)|) {
      EncodeDecoded(s, data, offset);
    }
  }

  /** A segment read panics exactly when the 64-bit sum of cursor and length overflows, and
      otherwise yields exactly the next `size` felts or reports that they are not there. */
  lemma {:induction false} SegmentPanicsOnOverflow(data: Slice, offset: nat)
    requires offset < |data| && data[offset] < U64_BOUND
    ensures var start, size := offset + 1, data[offset];
            Segment(data, offset) ==
              if start + size >= U64_BOUND then Err(Panic)
              else if start + size > |data| then Err(OutOfBounds)
              else Ok(data[start..start + size], start + size)
  {
    var sum := offset + 1 + data[offset];
    if sum >= U64_BOUND {
      assert sum == (sum - U64_BOUND) + U64_BOUND;
      assert sum % U64_BOUND == sum - U64_BOUND;
    }
  }

  // ---------------------------------------------------------------------------
  // The size estimate
  // ---------------------------------------------------------------------------

  function SizeInFelts(v: Value): nat
    decreases v
  {
    match v
    case FeltValue(_) => 1
    case EthValue(_) => 1
    case VecValue(vs) => 1 + |vs|
    case RecordValue(vs) => SizeOfFields(vs)
  }

  function SizeOfFields(vs: seq<Value>): nat
    decreases vs
  {
    if vs == [] then 0 else SizeInFelts(vs[0]) + SizeOfFields(vs[1..])
  }

  lemma {:induction false} ElementsEncodeToAtLeast(vs: seq<Value>, element: Shape)
    requires Productive(element) && forall i | 0 <= i < |vs| :: HasShape(vs[i], element)
    ensures |vs| <= |EncodeAll(vs)|
    ensures |vs| == |EncodeAll(vs)| <==> forall i | 0 <= i < |vs| :: |Encode(vs[i])| == 1
  {
    if vs != [] {
      EncodingNotEmpty(vs[0], element);
      ElementsEncodeToAtLeast(vs[1..], element);
      assert forall i | 0 < i < |vs| :: vs[i] == vs[1..][i - 1];
    }
  }

  /** The estimate used to reserve memory never exceeds the encoding, and for a list it is exact
      precisely when every element takes one felt. */
  lemma {:induction false} SizeIsLowerBound(v: Value, s: Shape)
    requires HasShape(v, s) && Productive(s)
    ensures SizeInFelts(v) <= |Encode(v)|
    ensures v.VecValue? ==>
              (SizeInFelts(v) == |Encode(v)| <==> forall i | 0 <= i < |v.elements| :: |Encode(v.elements[i])| == 1)
    decreases v
  {
    match v {
      case FeltValue(_) =>
      case EthValue(_) =>
      case VecValue(vs) => ElementsEncodeToAtLeast(vs, s.element);
      case RecordValue(vs) => FieldsLowerBound(vs, s.fields);
    }
  }

  lemma {:induction false} FieldsLowerBound(vs: seq<Value>, fields: seq<Shape>)
    requires |vs| == |fields| && forall i | 0 <= i < |vs| :: HasShape(vs[i], fields[i])
    requires forall f | f in fields :: Productive(f)
    ensures SizeOfFields(vs) <= |EncodeAll(vs)|
    decreases vs
  {
    if vs != [] {
      SizeIsLowerBound(vs[0], fields[0]);
      FieldsLowerBound(vs[1..], fields[1..]);
    }
  }
}
