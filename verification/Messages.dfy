/** The messages of the protocol: each kind's fields, and reading a message out of a packet. */
module Messages {
  import opened Base
  import opened Wire
  import opened Packets

  const VIDEO_FRAGMENT: seq<Field> := [U32Field, U64, U64, U64, U64, U8, U16, U16, U32Field, Blob]

  const INPUT_EVENT: seq<Field> := [U8, U8, U16, F32, F32, F32, F32, U32Field, U16, U32Field, U16, U8]

  const STATISTICS: seq<Field> :=
    [F32, U32Field, U32Field, U32Field, U16, U32Field, U64, U32Field, U32Field, U32Field]

  const DISPLAY_CAPABILITIES: seq<Field> :=
    [U32Field, U32Field, U32Field, U32Field, U32Field, F32, F32, F32, F32, F32, U8]

  /** The fields of a message, by its kind. */
  function Fields(kind: u16): Option<seq<Field>> {
    match kind
    case 1 => Some([U8, U8, U8, Blob, Text, U8])
    case 2 => Some([U8, U8])
    case 3 => Some([Blob, Text])
    case 4 => Some([Blob, Text])
    case 5 => Some([U8, Blob, Blob, Blob])
    case 6 => Some([U32Field, U32Field, U32Field])
    case 7 => Some([U8])
    case 8 => Some(DISPLAY_CAPABILITIES)
    case 9 => Some([U32Field, U32Field, U32Field, U32Field])
    case 10 => Some([U32Field, U32Field, U32Field])
    case 11 => Some([U32Field, U8, U32Field, U32Field])
    case 12 => Some([U8, U32Field, U32Field, U8])
    case 13 => Some([U32Field, U8, U32Field, U32Field, U32Field, U8, U8, Blob])
    case 14 => Some([U32Field, U64, U64, U64, U64, U8, Blob])
    case 15 => Some(VIDEO_FRAGMENT)
    case 16 => Some([U8])
    case 17 => Some(INPUT_EVENT)
    case 18 => Some([U64])
    case 19 => Some([U64, U64, U64])
    case 20 => Some(STATISTICS)
    case 21 => Some([U16, Text])
    case _ => None
  }

  /** A packet read as a message of the wanted kind. */
  function Message(p: Packet, kind: u16): Result<seq<Value>, WireError> {
    if p.kind != kind || Fields(kind).None? then Err(Unexpected) else DecodeBody(Fields(kind).value, p.body)
  }

  method ReadMessage(p: Packet, kind: u16) returns (r: Result<seq<Value>, WireError>)
    ensures r == Message(p, kind)
  {
    if p.kind != kind || Fields(kind).None? {
      return Err(Unexpected);
    }
    var reader := new Reader(p.body);
    r := reader.Message(Fields(kind).value);
  }

  method WriteMessage(kind: u16, vs: seq<Value>, sequence: u64, session: Bytes) returns (p: Packet)
    requires Fields(kind).Some? && AllTyped(Fields(kind).value, vs)
    ensures p == Packet(kind, sequence, session, EncodeFields(Fields(kind).value, vs))
  {
    hide Fields, EncodeFields;
    var w := new Writer([]);
    w.Message(Fields(kind).value, vs);
    assert [] + EncodeFields(Fields(kind).value, vs) == EncodeFields(Fields(kind).value, vs);
    p := Packet(kind, sequence, session, w.data);
  }

  /**
   From message to bytes and back, for every kind: what is written is read as it was exactly when each
   value keeps the reader's limits and the packet fits the receiver's.
   */
  lemma MessageRoundTrip(kind: u16, vs: seq<Value>, sequence: u64, session: Bytes, limit: nat)
    requires Fields(kind).Some? && AllTyped(Fields(kind).value, vs) && |session| == 16
    ensures var body := EncodeFields(Fields(kind).value, vs);
            var r := Decode(Encode(Packet(kind, sequence, session, body)), limit);
            r.Ok? && r.value.sequence == sequence && r.value.session == session && Message(r.value, kind) == Ok(vs) <==>
            AllFit(Fields(kind).value, vs) && |body| < U32 && HEADER + |body| <= limit
  {
    var body := EncodeFields(Fields(kind).value, vs);
    var p := Packet(kind, sequence, session, body);
    var d := Encode(p);
    hide Fields, EncodeFields, Decode, DecodeBody, EncodeWith, AllFit, AllTyped;
    assert d == EncodeWith(p, 0);
    CodecBijection(Fields(kind).value, body, vs);
    PacketBijection(d, limit, p);
    if Decode(d, limit).Ok? {
      OnlyPacket(d, limit, p);
    }
  }

  /** The encoding of a packet is not that of a packet with another body, unless the length field wraps around. */
  lemma OnlyPacket(d: Bytes, limit: nat, p: Packet)
    requires d == Encode(p) && |p.session| == 16 && Decode(d, limit).Ok?
    ensures Decode(d, limit) == Ok(p) && |p.body| < U32 && HEADER + |p.body| <= limit
  {
    var q := Decode(d, limit).value;
    PacketBijection(d, limit, q);
    EncodedLength(p, 0);
    var minor: u8 :| d == EncodeWith(q, minor);
    EncodedLength(q, minor);
    PacketBijection(d, limit, p);
    hide Decode, EncodeWith;
    assert d == EncodeWith(p, 0);
  }
}
