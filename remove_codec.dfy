/**
  The generated codec of `editor/remove.proto` (package xyz.unavi.editor.remove):
  RemoveNode and RemoveMesh, each one proto3 field `string target = 1`. The two generated
  classes are identical apart from their type name, so both are one definition here,
  parameterised by `MessageKind`.
*/
module RemoveCodec {
  import opened Wrappers
  import opened ProtoWire

  datatype MessageKind = RemoveNode | RemoveMesh

  function TypeName(kind: MessageKind): string
  {
    match kind
    case RemoveNode => "xyz.unavi.editor.remove.RemoveNode"
    case RemoveMesh => "xyz.unavi.editor.remove.RemoveMesh"
  }

  /** A RemoveNode or RemoveMesh message; `target` is held as its UTF-8 bytes. */
  datatype Remove = Remove(target: seq<byte>)

  /** The argument of `create`: a partial message whose `target` may be undefined. */
  datatype PartialRemove = PartialRemove(target: Option<seq<byte>>)

  /** `options.readUnknownField`: "throw", `false` (skip and drop), or `true` / a handler
      function (skip and hand the record to that handler). */
  datatype UnknownFieldMode = ThrowUnknown | DropUnknown | HandUnknown(handler: UnknownHandler)

  datatype UnknownHandler = StoreOnMessage | CustomHandler(id: nat)

  /** A record handed to the unknown-field handler: field number, wire type, raw value bytes. */
  datatype UnknownRecord = UnknownRecord(fieldNo: nat, wireType: nat, data: seq<byte>)

  datatype ReadError = Wire(cause: WireError) | UnknownField(fieldNo: nat, wireType: nat, typeName: string)

  /** What a read yields: the message and the unknown records handed to the handler, in order. */
  datatype Decoded = Decoded(message: Remove, handed: seq<UnknownRecord>)

  /** `create(value?)`: every field at its default (the empty string), then the fields the
      partial value defines merged over it. */
  function Create(value: Option<PartialRemove>): (m: Remove)
    ensures value.None? ==> m.target == []
    ensures value.Some? ==> m.target == (if value.value.target.Some? then value.value.target.value else [])
  {
    var message := Remove([]);
    if value.Some? && value.value.target.Some? then Remove(value.value.target.value) else message
  }

  /** `internalBinaryWrite`: proto3 omits a field at its default, so an empty target writes
      nothing; any other target writes one length-delimited record for field 1. Unknown
      fields stored on a message are not part of this model, so the unknown-field writer
      adds nothing. */
  function InternalBinaryWrite(m: Remove): (w: seq<byte>)
    ensures w == [] <==> m.target == []
    ensures m.target != [] ==> w[0] == 1 * 8 + LengthDelimited
  {
    if m.target != [] then EncodeTag(1, LengthDelimited) + EncodeBytes(m.target) else []
  }

  /** The loop of `internalBinaryRead` from position `pos` on: while `pos < end`, read a tag;
      field 1 replaces `target` with the string that follows (whatever the wire type); any
      other field throws under "throw", and is otherwise skipped and, unless the option is
      `false`, handed to the handler. */
  function ReadFrom(kind: MessageKind, buf: seq<byte>, pos: nat, end: nat, mode: UnknownFieldMode,
                    message: Remove, handed: seq<UnknownRecord>): Result<Decoded, ReadError>
    decreases |buf| - pos
  {
    if pos >= end then Success(Decoded(message, handed))
    else
      match ReadTag(buf, pos)
      case Failure(e) => Failure(Wire(e))
      case Success(t) =>
        var tag, p := t.0, t.1;
        if tag.fieldNo == 1 then
          match ReadBytes(buf, p)
          case Failure(e) => Failure(Wire(e))
          case Success(s) => ReadFrom(kind, buf, s.1, end, mode, Remove(s.0), handed)
        else if mode.ThrowUnknown? then
          Failure(UnknownField(tag.fieldNo, tag.wireType, TypeName(kind)))
        else
          match Skip(buf, p, tag.wireType)
          case Failure(e) => Failure(Wire(e))
          case Success(q) =>
            var handed' := if mode.DropUnknown? then handed
                           else handed + [UnknownRecord(tag.fieldNo, tag.wireType, buf[p..q])];
            ReadFrom(kind, buf, q, end, mode, message, handed')
  }

  /** `internalBinaryRead(reader, length, options, target?)` on a reader positioned at
      `start`: the message starts as `target` when one is given and as `create()` otherwise. */
  method InternalBinaryRead(kind: MessageKind, buf: seq<byte>, start: nat, length: nat,
                            mode: UnknownFieldMode, target: Option<Remove>)
    returns (r: Result<Decoded, ReadError>)
    ensures r == ReadFrom(kind, buf, start, start + length, mode,
                          if target.Some? then target.value else Create(None), [])
  {
    var message := if target.Some? then target.value else Create(None);
    var end := start + length;
    var pos := start;
    var handed: seq<UnknownRecord> := [];
    while pos < end
      invariant ReadFrom(kind, buf, pos, end, mode, message, handed)
             == ReadFrom(kind, buf, start, end, mode, if target.Some? then target.value else Create(None), [])
      decreases |buf| - pos
    {
      var tagRead := ReadTag(buf, pos);
      if tagRead.Failure? {
        return Failure(Wire(tagRead.error));
      }
      var tag := tagRead.value.0;
      pos := tagRead.value.1;
      if tag.fieldNo == 1 {
        var s := ReadBytes(buf, pos);
        if s.Failure? {
          return Failure(Wire(s.error));
        }
        message := Remove(s.value.0);
        pos := s.value.1;
      } else {
        if mode.ThrowUnknown? {
          return Failure(UnknownField(tag.fieldNo, tag.wireType, TypeName(kind)));
        }
        var d := Skip(buf, pos, tag.wireType);
        if d.Failure? {
          return Failure(Wire(d.error));
        }
        if !mode.DropUnknown? {
          handed := handed + [UnknownRecord(tag.fieldNo, tag.wireType, buf[pos..d.value])];
        }
        pos := d.value;
      }
    }
    return Success(Decoded(message, handed));
  }

  /** Reading a whole buffer with no target given. */
  function Read(kind: MessageKind, buf: seq<byte>, mode: UnknownFieldMode): Result<Decoded, ReadError>
  {
    ReadFrom(kind, buf, 0, |buf|, mode, Create(None), [])
  }

  /** One field-1 record at `pos` replaces the message being read and leaves the rest of the
      read to the bytes after it. */
  lemma ReadTargetRecord(kind: MessageKind, m: Remove, buf: seq<byte>, pos: nat, end: nat,
                         mode: UnknownFieldMode, message: Remove, handed: seq<UnknownRecord>)
    requires m.target != []
    requires pos + |InternalBinaryWrite(m)| <= |buf| && pos + |InternalBinaryWrite(m)| <= end
    requires buf[pos..pos + |InternalBinaryWrite(m)|] == InternalBinaryWrite(m)
    ensures ReadFrom(kind, buf, pos, end, mode, message, handed)
         == ReadFrom(kind, buf, pos + |InternalBinaryWrite(m)|, end, mode, m, handed)
  {
    var w := InternalBinaryWrite(m);
    var tag := EncodeTag(1, LengthDelimited);
    var p := pos + |tag|;
    SubSlice(buf, pos, w, 0, |tag|);
    assert w[0..|tag|] == tag;
    TagRoundTrip(1, LengthDelimited, buf, pos);
    SubSlice(buf, pos, w, |tag|, |w|);
    assert w[|tag|..|w|] == EncodeBytes(m.target);
    BytesRoundTrip(m.target, buf, p);
    assert p + |EncodeBytes(m.target)| == pos + |w|;
    TargetStep(kind, buf, pos, end, mode, message, handed, LengthDelimited, p, m.target, pos + |w|);
  }

  /** One step of the read loop over a field-1 record. */
  lemma TargetStep(kind: MessageKind, buf: seq<byte>, pos: nat, end: nat, mode: UnknownFieldMode,
                   message: Remove, handed: seq<UnknownRecord>, wireType: nat, p: nat, s: seq<byte>, q: nat)
    requires pos < end
    requires ReadTag(buf, pos) == Success((Tag(1, wireType), p))
    requires ReadBytes(buf, p) == Success((s, q))
    ensures ReadFrom(kind, buf, pos, end, mode, message, handed) == ReadFrom(kind, buf, q, end, mode, Remove(s), handed)
  {
  }

  /** Round trip: decoding the encoding of a message gives the message back, with nothing
      handed to the unknown-field handler, whatever the unknown-field option. */
  lemma RoundTrip(kind: MessageKind, m: Remove, mode: UnknownFieldMode)
    ensures Read(kind, InternalBinaryWrite(m), mode) == Success(Decoded(m, []))
  {
    var w := InternalBinaryWrite(m);
    if m.target != [] {
      assert w[0..|w|] == w;
      ReadTargetRecord(kind, m, w, 0, |w|, mode, Create(None), []);
    }
  }

  /** Reading into an existing target: an empty encoding keeps the target's own value (proto3
      merge semantics), a non-empty one replaces it. */
  lemma MergeIntoTarget(kind: MessageKind, m: Remove, into: Remove, mode: UnknownFieldMode)
    ensures ReadFrom(kind, InternalBinaryWrite(m), 0, |InternalBinaryWrite(m)|, mode, into, [])
         == Success(Decoded(if m.target == [] then into else m, []))
  {
    var w := InternalBinaryWrite(m);
    if m.target != [] {
      assert w[0..|w|] == w;
      ReadTargetRecord(kind, m, w, 0, |w|, mode, into, []);
    }
  }

  /** When field 1 appears twice, the last value read wins. */
  lemma LastWins(kind: MessageKind, a: Remove, b: Remove, mode: UnknownFieldMode)
    ensures Read(kind, InternalBinaryWrite(a) + InternalBinaryWrite(b), mode)
         == Success(Decoded(if b.target == [] then a else b, []))
  {
    var wa, wb := InternalBinaryWrite(a), InternalBinaryWrite(b);
    if a.target == [] {
      assert wa + wb == wb;
      RoundTrip(kind, b, mode);
    } else if b.target == [] {
      assert wa + wb == wa;
      RoundTrip(kind, a, mode);
    } else {
      var buf := wa + wb;
      assert buf[0..|wa|] == wa;
      assert buf[|wa|..|buf|] == wb;
      BothRecords(kind, a, b, buf, mode);
    }
  }

  lemma BothRecords(kind: MessageKind, a: Remove, b: Remove, buf: seq<byte>, mode: UnknownFieldMode)
    requires a.target != [] && b.target != []
    requires |InternalBinaryWrite(a)| + |InternalBinaryWrite(b)| == |buf|
    requires buf[0..|InternalBinaryWrite(a)|] == InternalBinaryWrite(a)
    requires buf[|InternalBinaryWrite(a)|..|buf|] == InternalBinaryWrite(b)
    ensures ReadFrom(kind, buf, 0, |buf|, mode, Create(None), []) == Success(Decoded(b, []))
  {
    var n := |InternalBinaryWrite(a)|;
    assert ReadFrom(kind, buf, 0, |buf|, mode, Create(None), []) == ReadFrom(kind, buf, n, |buf|, mode, a, []) by {
      ReadTargetRecord(kind, a, buf, 0, |buf|, mode, Create(None), []);
    }
    assert ReadFrom(kind, buf, n, |buf|, mode, a, []) == ReadFrom(kind, buf, |buf|, |buf|, mode, b, []) by {
      ReadTargetRecord(kind, b, buf, n, |buf|, mode, a, []);
    }
  }

  /** A record for any field other than 1 is skipped: dropped under `false`, handed to the
      handler otherwise. */
  lemma ReadUnknownRecord(kind: MessageKind, buf: seq<byte>, pos: nat, end: nat, mode: UnknownFieldMode,
                          message: Remove, handed: seq<UnknownRecord>, tag: Tag, p: nat, q: nat)
    requires pos < end && !mode.ThrowUnknown?
    requires ReadTag(buf, pos) == Success((tag, p)) && tag.fieldNo != 1
    requires Skip(buf, p, tag.wireType) == Success(q)
    ensures p <= q <= |buf|
    ensures ReadFrom(kind, buf, pos, end, mode, message, handed)
         == ReadFrom(kind, buf, q, end, mode, message,
                     if mode.DropUnknown? then handed else handed + [UnknownRecord(tag.fieldNo, tag.wireType, buf[p..q])])
  {
  }

  /** Under "throw", a record for any field other than 1 ends the read with an error. */
  lemma ReadUnknownThrows(kind: MessageKind, buf: seq<byte>, pos: nat, end: nat, message: Remove,
                          handed: seq<UnknownRecord>, tag: Tag, p: nat)
    requires pos < end
    requires ReadTag(buf, pos) == Success((tag, p)) && tag.fieldNo != 1
    ensures ReadFrom(kind, buf, pos, end, ThrowUnknown, message, handed)
         == Failure(UnknownField(tag.fieldNo, tag.wireType, TypeName(kind)))
  {
  }

  /** An unknown varint field (any field number other than 1): under "throw" the read fails
      naming the field, wire type and message type; under `false` it is skipped silently;
      otherwise it is skipped and handed to the handler with its raw value bytes. */
  lemma UnknownVarintField(kind: MessageKind, fieldNo: nat, value: nat, mode: UnknownFieldMode, buf: seq<byte>)
    requires 2 <= fieldNo
    requires buf == EncodeTag(fieldNo, Varint) + EncodeVarint(value)
    ensures mode.ThrowUnknown? ==> Read(kind, buf, mode) == Failure(UnknownField(fieldNo, Varint, TypeName(kind)))
    ensures mode.DropUnknown? ==> Read(kind, buf, mode) == Success(Decoded(Remove([]), []))
    ensures mode.HandUnknown? ==>
      Read(kind, buf, mode) == Success(Decoded(Remove([]), [UnknownRecord(fieldNo, Varint, EncodeVarint(value))]))
  {
    var tag := EncodeTag(fieldNo, Varint);
    var val := EncodeVarint(value);
    var n := |tag|;
    assert buf[0..n] == tag;
    TagRoundTrip(fieldNo, Varint, buf, 0);
    assert buf[n..n + |val|] == val;
    SkipVarintValue(value, buf, n);
    assert buf[n..|buf|] == val;
    assert Read(kind, buf, mode) == ReadFrom(kind, buf, 0, |buf|, mode, Remove([]), []);
    if mode.ThrowUnknown? {
      ReadUnknownThrows(kind, buf, 0, |buf|, Remove([]), [], Tag(fieldNo, Varint), n);
    } else {
      ReadUnknownRecord(kind, buf, 0, |buf|, mode, Remove([]), [], Tag(fieldNo, Varint), n, |buf|);
      var rec := UnknownRecord(fieldNo, Varint, val);
      assert [] + [rec] == [rec];
      var handed := if mode.DropUnknown? then [] else [rec];
      assert ReadFrom(kind, buf, |buf|, |buf|, mode, Remove([]), handed) == Success(Decoded(Remove([]), handed));
    }
  }
}
