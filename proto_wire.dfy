/**
  The binary reader and writer primitives of the protobuf runtime that the generated
  codecs call (`reader.tag`, `reader.string`, `reader.skip`, `writer.tag(..).string(..)`),
  stated per the Protocol Buffers wire format ("Encoding"): base-128 varints, a tag is the
  varint `field_number << 3 | wire_type`, a length-delimited record is a varint length
  followed by that many bytes. Strings travel as their UTF-8 bytes; the text codec itself
  is not part of this model.
*/
module ProtoWire {
  import opened Wrappers

  type byte = x: int | 0 <= x < 256

  // The wire types of the format.
  const Varint: nat := 0
  const Bit64: nat := 1
  const LengthDelimited: nat := 2
  const StartGroup: nat := 3
  const EndGroup: nat := 4
  const Bit32: nat := 5

  /** What the reader throws: running past the end of the buffer, a tag with field number 0
      or a wire type above 5, or a wire type that cannot be skipped. */
  datatype WireError = PrematureEof | IllegalTag(fieldNo: nat, wireType: nat) | CantSkip(wireType: nat)

  datatype Tag = Tag(fieldNo: nat, wireType: nat)

  /** Base-128 varint: seven bits per byte, least significant group first, the high bit set
      on every byte except the last. */
  function EncodeVarint(n: nat): (r: seq<byte>)
    ensures 1 <= |r|
    decreases n
  {
    if n < 128 then [n] else [n % 128 + 128] + EncodeVarint(n / 128)
  }

  /** The continuation bit is set on every byte of a varint but the last. */
  lemma {:induction false} VarintBytes(n: nat)
    ensures var r := EncodeVarint(n);
            r[|r| - 1] < 128 && forall i :: 0 <= i < |r| - 1 ==> 128 <= r[i]
    decreases n
  {
    if n >= 128 {
      VarintBytes(n / 128);
    }
  }

  /** Reads one varint at `pos`; yields its value and the position after it. */
  function ReadVarint(buf: seq<byte>, pos: nat): (r: Result<(nat, nat), WireError>)
    ensures r.Success? ==> pos < r.value.1 <= |buf|
    ensures r.Failure? ==> r.error == PrematureEof
    decreases |buf| - pos
  {
    if pos >= |buf| then Failure(PrematureEof)
    else if buf[pos] < 128 then Success((buf[pos], pos + 1))
    else
      match ReadVarint(buf, pos + 1)
      case Failure(e) => Failure(e)
      case Success(rest) => Success((buf[pos] - 128 + 128 * rest.0, rest.1))
  }

  function EncodeTag(fieldNo: nat, wireType: nat): seq<byte>
  {
    EncodeVarint(fieldNo * 8 + wireType)
  }

  /** `reader.tag()`: a varint split into field number and wire type; field number 0 and
      wire types 6 and 7 are rejected. */
  function ReadTag(buf: seq<byte>, pos: nat): (r: Result<(Tag, nat), WireError>)
    ensures r.Success? ==> pos < r.value.1 <= |buf|
    ensures r.Success? ==> 1 <= r.value.0.fieldNo && r.value.0.wireType <= Bit32
  {
    match ReadVarint(buf, pos)
    case Failure(e) => Failure(e)
    case Success(v) =>
      var fieldNo, wireType := v.0 / 8, v.0 % 8;
      if fieldNo == 0 || wireType > Bit32 then Failure(IllegalTag(fieldNo, wireType))
      else Success((Tag(fieldNo, wireType), v.1))
  }

  /** A length-delimited payload: its length as a varint, then its bytes. */
  function EncodeBytes(data: seq<byte>): seq<byte>
  {
    EncodeVarint(|data|) + data
  }

  /** `reader.string()` / `reader.bytes()`: the payload of a length-delimited record. */
  function ReadBytes(buf: seq<byte>, pos: nat): (r: Result<(seq<byte>, nat), WireError>)
    ensures r.Success? ==> pos < r.value.1 <= |buf|
    ensures r.Success? ==> |r.value.0| < r.value.1 && r.value.0 == buf[r.value.1 - |r.value.0|..r.value.1]
  {
    match ReadVarint(buf, pos)
    case Failure(e) => Failure(e)
    case Success(v) =>
      if v.1 + v.0 > |buf| then Failure(PrematureEof)
      else Success((buf[v.1..v.1 + v.0], v.1 + v.0))
  }

  /** `reader.skip(wireType)`: the position after the value of a record whose tag has just
      been read. A group is skipped tag by tag up to its end-group tag. */
  function Skip(buf: seq<byte>, pos: nat, wireType: nat): (r: Result<nat, WireError>)
    ensures r.Success? ==> pos < r.value <= |buf|
    ensures r.Success? ==> wireType <= Bit32 && wireType != EndGroup
    decreases |buf| - pos, 1
  {
    if wireType == Varint then
      match ReadVarint(buf, pos)
      case Failure(e) => Failure(e)
      case Success(v) => Success(v.1)
    else if wireType == Bit64 then
      if pos + 8 <= |buf| then Success(pos + 8) else Failure(PrematureEof)
    else if wireType == Bit32 then
      if pos + 4 <= |buf| then Success(pos + 4) else Failure(PrematureEof)
    else if wireType == LengthDelimited then
      match ReadBytes(buf, pos)
      case Failure(e) => Failure(e)
      case Success(v) => Success(v.1)
    else if wireType == StartGroup then
      SkipGroup(buf, pos)
    else
      Failure(CantSkip(wireType))
  }

  /** The body of a group: records up to and including the end-group tag. */
  function SkipGroup(buf: seq<byte>, pos: nat): (r: Result<nat, WireError>)
    ensures r.Success? ==> pos < r.value <= |buf|
    decreases |buf| - pos, 0
  {
    match ReadTag(buf, pos)
    case Failure(e) => Failure(e)
    case Success(t) =>
      if t.0.wireType == EndGroup then Success(t.1)
      else
        match Skip(buf, t.1, t.0.wireType)
        case Failure(e) => Failure(e)
        case Success(q) => SkipGroup(buf, q)
  }

  /** Decoding an encoded varint, wherever it sits in a buffer, gives back the number and
      stops right after its last byte. */
  lemma {:induction false} VarintRoundTrip(n: nat, buf: seq<byte>, pos: nat)
    requires pos + |EncodeVarint(n)| <= |buf|
    requires buf[pos..pos + |EncodeVarint(n)|] == EncodeVarint(n)
    ensures ReadVarint(buf, pos) == Success((n, pos + |EncodeVarint(n)|))
    decreases n
  {
    if n < 128 {
      VarintShort(n, buf, pos);
    } else {
      VarintTail(n, buf, pos);
      VarintRoundTrip(n / 128, buf, pos + 1);
      VarintStep(n, buf, pos, |EncodeVarint(n / 128)|);
    }
  }

  /** A varint below 128 is one byte, read back at once. */
  lemma VarintShort(n: nat, buf: seq<byte>, pos: nat)
    requires n < 128
    requires pos + |EncodeVarint(n)| <= |buf|
    requires buf[pos..pos + |EncodeVarint(n)|] == EncodeVarint(n)
    ensures ReadVarint(buf, pos) == Success((n, pos + |EncodeVarint(n)|))
  {
    assert buf[pos] == buf[pos..pos + 1][0];
  }

  /** The bytes after the first byte of a long varint are the varint of the rest. */
  lemma VarintTail(n: nat, buf: seq<byte>, pos: nat)
    requires n >= 128
    requires pos + |EncodeVarint(n)| <= |buf|
    requires buf[pos..pos + |EncodeVarint(n)|] == EncodeVarint(n)
    ensures var t := EncodeVarint(n / 128);
            |EncodeVarint(n)| == 1 + |t| && buf[pos + 1..pos + 1 + |t|] == t
    ensures buf[pos] == n % 128 + 128
  {
    var e, t := EncodeVarint(n), EncodeVarint(n / 128);
    assert e == [n % 128 + 128] + t;
    assert buf[pos] == buf[pos..pos + |e|][0];
    SubSlice(buf, pos, e, 1, |e|);
    assert e[1..|e|] == t;
  }

  /** One step of the reader on the first byte of a long varint. */
  lemma VarintStep(n: nat, buf: seq<byte>, pos: nat, len: nat)
    requires n >= 128 && pos < |buf| && buf[pos] == n % 128 + 128
    requires ReadVarint(buf, pos + 1) == Success((n / 128, pos + 1 + len))
    ensures ReadVarint(buf, pos) == Success((n, pos + 1 + len))
  {
  }

  /** A tag written for a legal field number and wire type reads back as the same pair. */
  lemma TagRoundTrip(fieldNo: nat, wireType: nat, buf: seq<byte>, pos: nat)
    requires 1 <= fieldNo && wireType <= Bit32
    requires pos + |EncodeTag(fieldNo, wireType)| <= |buf|
    requires buf[pos..pos + |EncodeTag(fieldNo, wireType)|] == EncodeTag(fieldNo, wireType)
    ensures ReadTag(buf, pos) == Success((Tag(fieldNo, wireType), pos + |EncodeTag(fieldNo, wireType)|))
  {
    VarintRoundTrip(fieldNo * 8 + wireType, buf, pos);
  }

  /** A part of an encoding that sits in a buffer sits at the matching place of the buffer. */
  lemma SubSlice(buf: seq<byte>, pos: nat, e: seq<byte>, a: nat, b: nat)
    requires pos + |e| <= |buf| && buf[pos..pos + |e|] == e && a <= b <= |e|
    ensures buf[pos + a..pos + b] == e[a..b]
  {
    forall k | pos + a <= k < pos + b
      ensures buf[k] == e[k - pos]
    {
      assert buf[k] == buf[pos..pos + |e|][k - pos];
    }
  }

  /** A length-delimited payload reads back as the same bytes and stops right after them. */
  lemma BytesRoundTrip(data: seq<byte>, buf: seq<byte>, pos: nat)
    requires pos + |EncodeBytes(data)| <= |buf|
    requires buf[pos..pos + |EncodeBytes(data)|] == EncodeBytes(data)
    ensures ReadBytes(buf, pos) == Success((data, pos + |EncodeBytes(data)|))
  {
    var e := EncodeBytes(data);
    var lenBytes := EncodeVarint(|data|);
    var p := pos + |lenBytes|;
    SubSlice(buf, pos, e, 0, |lenBytes|);
    assert e[0..|lenBytes|] == lenBytes;
    VarintRoundTrip(|data|, buf, pos);
    SubSlice(buf, pos, e, |lenBytes|, |e|);
    assert e[|lenBytes|..|e|] == data;
  }

  /** Skipping a varint value moves past exactly its encoding. */
  lemma SkipVarintValue(n: nat, buf: seq<byte>, pos: nat)
    requires pos + |EncodeVarint(n)| <= |buf|
    requires buf[pos..pos + |EncodeVarint(n)|] == EncodeVarint(n)
    ensures Skip(buf, pos, Varint) == Success(pos + |EncodeVarint(n)|)
  {
    VarintRoundTrip(n, buf, pos);
  }
}
