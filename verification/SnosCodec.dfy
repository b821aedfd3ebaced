/** The codec as the source runs it: a cursor that is advanced and a buffer that is patched. */
module SnosCodec {
  import opened Basics
  import opened Snos

  class FeltReader {
    const data: Slice
    var offset: nat

    ghost predicate Valid()
      reads this
    {
      offset <= |data|
    }

    constructor (data: Slice)
      ensures Valid() && this.data == data && offset == 0
    {
      this.data, offset := data, 0;
    }

    method RemainingLen() returns (n: nat)
      requires Valid()
      ensures n == |data[offset..]|
    {
      n := |data| - offset;
    }

    method Read() returns (r: Result<nat>)
      requires Valid()
      modifies this
      ensures Valid() && r == ReadFelt(data, old(offset))
      ensures offset == if r.Ok? then r.offset else old(offset)
    {
      if offset >= |data| {
        return Err(OutOfBounds);
      }
      var felt := data[offset];
      offset := offset + 1;
      return Ok(felt, offset);
    }

    /** The cursor ends right behind the segment. */
    method ReadSegment() returns (r: Result<Slice>)
      requires Valid()
      modifies this
      ensures Valid() && r == Segment(data, old(offset))
      ensures r.Ok? ==> offset == r.offset
    {
      var size := Read();
      if size.Err? {
        return Err(size.error);
      }
      if size.value >= U64_BOUND {
        return Err(InvalidCast);
      }
      var start := offset;
      var end := WrappingAdd(start, size.value);
      if end > |data| {
        return Err(OutOfBounds);
      }
      if end < start {
        return Err(Panic);
      }
      offset := end;
      return Ok(data[start..end], end);
    }
  }

  class FeltBuffer {
    var felts: seq<nat>

    constructor ()
      ensures felts == []
    {
      felts := [];
    }

    method Push(f: nat)
      modifies this
      ensures felts == old(felts) + [f]
    {
      felts := felts + [f];
    }

    method Patch(i: nat, f: nat)
      requires i < |felts|
      modifies this
      ensures felts == old(felts)[i := f]
    {
      felts := felts[i := f];
    }
  }

  lemma {:induction false} EncodeAllSnoc(vs: seq<Value>, i: nat)
    requires i < |vs|
    ensures EncodeAll(vs[..i + 1]) == EncodeAll(vs[..i]) + Encode(vs[i])
    decreases |vs|
  {
    if i > 0 {
      EncodeAllSnoc(vs[1..], i - 1);
      assert vs[..i + 1][1..] == vs[1..][..i] && vs[..i][1..] == vs[1..][..i - 1];
    } else {
      assert vs[..1] == [vs[0]] && EncodeAll(vs[..1][1..]) == [];
    }
  }

  /** Writes the length of a list as a placeholder and patches it once the elements are written;
      the buffer ends up extended by exactly the encoding. */
  method EncodeTo(v: Value, output: FeltBuffer)
    modifies output
    ensures output.felts == old(output.felts) + Encode(v)
    decreases v
  {
    match v {
      case FeltValue(f) => output.Push(f);
      case EthValue(a) => output.Push(a);
      case VecValue(vs) =>
        output.Push(0);
        var lenBefore := |output.felts|;
        for i := 0 to |vs|
          invariant output.felts == old(output.felts) + [0] + EncodeAll(vs[..i])
        {
          EncodeTo(vs[i], output);
          EncodeAllSnoc(vs, i);
        }
        assert vs[..|vs|] == vs;
        var addedData := |output.felts| - lenBefore;
        output.Patch(lenBefore - 1, addedData);
      case RecordValue(vs) =>
        for i := 0 to |vs|
          invariant output.felts == old(output.felts) + EncodeAll(vs[..i])
        {
          EncodeTo(vs[i], output);
          EncodeAllSnoc(vs, i);
        }
        assert vs[..|vs|] == vs;
    }
  }

  /** Decodes at the cursor and leaves the cursor behind what it consumed. */
  method DecodeFrom(s: Shape, input: FeltReader) returns (r: Result<Value>)
    requires Productive(s) && input.Valid()
    modifies input
    ensures input.Valid() && r == Decode(s, input.data, old(input.offset))
    ensures r.Ok? ==> input.offset == r.offset
    decreases s
  {
    match s {
      case FeltShape =>
        var felt := input.Read();
        r := if felt.Ok? then Ok(FeltValue(felt.value), input.offset) else Err(felt.error);
      case EthShape =>
        var felt := input.Read();
        if felt.Err? {
          return Err(felt.error);
        }
        r := if felt.value < ETH_BOUND then Ok(EthValue(felt.value), input.offset) else Err(InvalidCast);
      case VecShape(element) =>
        var segment := input.ReadSegment();
        if segment.Err? {
          return Err(segment.error);
        }
        var reader := new FeltReader(segment.value);
        var elements: seq<Value> := [];
        PrependNothing(DecodeList(element, reader.data, 0));
        var remaining := reader.RemainingLen();
        while remaining > 0
          invariant fresh(reader) && reader.Valid() && remaining == |reader.data| - reader.offset
          invariant input.Valid() && input.offset == segment.offset
          invariant Prepend(elements, DecodeList(element, reader.data, reader.offset)) ==
                    DecodeList(element, reader.data, 0)
        {
          var e := DecodeFrom(element, reader);
          if e.Err? {
            return Err(e.error);
          }
          ghost var tail := DecodeList(element, reader.data, reader.offset);
          assert tail.Ok? ==> elements + ([e.value] + tail.value) == (elements + [e.value]) + tail.value;
          elements := elements + [e.value];
          remaining := reader.RemainingLen();
        }
        assert elements + [] == elements;
        r := Ok(VecValue(elements), input.offset);
      case RecordShape(fields) =>
        var values: seq<Value> := [];
        PrependNothing(DecodeFields(fields, input.data, input.offset));
        assert fields[0..] == fields;
        for i := 0 to |fields|
          invariant input.Valid()
          invariant Prepend(values, DecodeFields(fields[i..], input.data, input.offset)) ==
                    DecodeFields(fields, input.data, old(input.offset))
        {
          assert fields[i..][0] == fields[i] && fields[i..][1..] == fields[i + 1..];
          var f := DecodeFrom(fields[i], input);
          if f.Err? {
            return Err(f.error);
          }
          ghost var tail := DecodeFields(fields[i + 1..], input.data, input.offset);
          assert tail.Ok? ==> values + ([f.value] + tail.value) == (values + [f.value]) + tail.value;
          values := values + [f.value];
        }
        assert values + [] == values;
        r := Ok(RecordValue(values), input.offset);
    }
  }

  ghost function Prepend(vs: seq<Value>, r: Result<seq<Value>>): Result<seq<Value>> {
    if r.Ok? then Ok(vs + r.value, r.offset) else r
  }

  lemma {:induction false} PrependNothing(r: Result<seq<Value>>)
    ensures Prepend([], r) == r
  {
    if r.Ok? {
      assert [] + r.value == r.value;
    }
  }
}
