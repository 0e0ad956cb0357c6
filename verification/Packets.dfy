/** Packets: a fixed header with kind, sequence number and session token, and a body of the length it gives. */
module Packets {
  import opened Base
  import opened Wire

  const MAGIC: Bytes := [83, 68, 79, 83]
  const HEADER: nat := 36
  const MAX_CONTROL: nat := 65_536

  datatype Packet = Packet(kind: u16, sequence: u64, session: Bytes, body: Bytes)

  // One packet

  function EncodeWith(p: Packet, minor: nat): Bytes {
    MAGIC + (Le(1, 1) + (Le(minor, 1)
      + (Le(p.kind, 2) + (Le(|p.body|, 4) + (Le(p.sequence, 8) + (p.session + p.body))))))
  }

  function Encode(p: Packet): Bytes {
    EncodeWith(p, 0)
  }

  datatype Header = Header(magic: Bytes, major: nat, minor: nat, kind: u16, length: nat, sequence: u64, session: Bytes)

  function TakeHeader(d: Bytes): Result<Read<Header>, WireError> {
    var magic :- Take(d, 4);
    var major :- TakeNum(magic.rest, 1);
    var minor :- TakeNum(major.rest, 1);
    var kind :- TakeNum(minor.rest, 2);
    var length :- TakeNum(kind.rest, 4);
    var sequence :- TakeNum(length.rest, 8);
    var session :- Take(sequence.rest, 16);
    NumBound(minor.rest, 2);
    NumBound(length.rest, 8);
    Widths();
    Ok(Read(Header(magic.value, major.value, minor.value, kind.value, length.value, sequence.value, session.value),
            session.rest))
  }

  lemma NumBound(d: Bytes, k: nat)
    ensures TakeNum(d, k).Ok? ==> TakeNum(d, k).value.value < Pow256(k)
  {
    if k <= |d| {
      FromLeBound(d[..k]);
    }
  }

  function Decode(d: Bytes, limit: nat): Result<Packet, WireError> {
    if |d| < HEADER || |d| > limit then Err(BadLength)
    else
      var h :- TakeHeader(d);
      if h.value.magic != MAGIC then Err(BadMagic)
      else if h.value.major != 1 then Err(BadVersion)
      else if h.value.length != |d| - HEADER then Err(BadLength)
      else Ok(Packet(h.value.kind, h.value.sequence, h.value.session, h.rest))
  }

  lemma HeaderBack(p: Packet, minor: u8)
    requires |p.session| == 16 && |p.body| < U32
    ensures TakeHeader(EncodeWith(p, minor)) ==
            Ok(Read(Header(MAGIC, 1, minor, p.kind, |p.body|, p.sequence, p.session), p.body))
  {
    hide Le, FromLe, Pow256, Take, TakeNum;
    Widths();
    var r7 := p.session + p.body;
    var r6 := Le(p.sequence, 8) + r7;
    var r5 := Le(|p.body|, 4) + r6;
    var r4 := Le(p.kind, 2) + r5;
    var r3 := Le(minor, 1) + r4;
    TakeBack(MAGIC, Le(1, 1) + r3);
    NumBack(1, 1, r3);
    NumBack(minor, 1, r4);
    NumBack(p.kind, 2, r5);
    NumBack(|p.body|, 4, r6);
    NumBack(p.sequence, 8, r7);
    TakeBack(p.session, p.body);
  }

  lemma TakeSplits(d: Bytes, n: nat)
    requires Take(d, n).Ok?
    ensures var r := Take(d, n).value; d == r.value + r.rest && |r.value| == n
  {
  }

  lemma HeaderSplits(d: Bytes)
    requires TakeHeader(d).Ok?
    ensures var r := TakeHeader(d).value;
            var h := r.value;
            && |h.magic| == 4 && h.major < 0x100 && h.minor < 0x100 && h.length < U32 && |h.session| == 16
            && d == h.magic + (Le(h.major, 1) + (Le(h.minor, 1) + (Le(h.kind, 2) + (Le(h.length, 4)
                    + (Le(h.sequence, 8) + (h.session + r.rest))))))
  {
    hide Le, FromLe, Pow256, Take, TakeNum;
    Widths();
    TakeSplits(d, 4);
    var r1 := Take(d, 4).value.rest;
    TakeNumSplits(r1, 1);
    var r2 := TakeNum(r1, 1).value.rest;
    TakeNumSplits(r2, 1);
    var r3 := TakeNum(r2, 1).value.rest;
    TakeNumSplits(r3, 2);
    var r4 := TakeNum(r3, 2).value.rest;
    TakeNumSplits(r4, 4);
    var r5 := TakeNum(r4, 4).value.rest;
    TakeNumSplits(r5, 8);
    TakeSplits(TakeNum(r5, 8).value.rest, 16);
  }

  lemma HeaderEnough(d: Bytes)
    requires |d| >= HEADER
    ensures TakeHeader(d).Ok?
  {
    hide FromLe, Le, Pow256;
  }

  lemma EncodedLength(p: Packet, minor: nat)
    ensures |EncodeWith(p, minor)| == 20 + |p.session| + |p.body|
  {
    hide Le;
  }

  /**
   Packets as a bijection, up to the minor version, which is written as 0 and ignored when read: a
   datagram or frame is read as `p` exactly when it is the encoding of `p` with some minor version.
   */
  lemma PacketBijection(d: Bytes, limit: nat, p: Packet)
    ensures Decode(d, limit) == Ok(p) <==>
            |p.session| == 16 && |p.body| < U32 && HEADER + |p.body| <= limit
            && exists minor: u8 :: d == EncodeWith(p, minor)
  {
    hide TakeHeader, EncodeWith;
    if Decode(d, limit) == Ok(p) {
      HeaderSplits(d);
      var h := TakeHeader(d).value.value;
      EncodeWithFields(p, h.minor);
      assert d == EncodeWith(p, h.minor);
      EncodedLength(p, h.minor);
    }
    if |p.session| == 16 && |p.body| < U32 && HEADER + |p.body| <= limit
       && exists minor: u8 :: d == EncodeWith(p, minor) {
      var minor: u8 :| d == EncodeWith(p, minor);
      EncodedLength(p, minor);
      HeaderBack(p, minor);
    }
  }

  lemma EncodeWithFields(p: Packet, minor: nat)
    ensures EncodeWith(p, minor) ==
            MAGIC + (Le(1, 1) + (Le(minor, 1)
              + (Le(p.kind, 2) + (Le(|p.body|, 4) + (Le(p.sequence, 8) + (p.session + p.body))))))
  {
  }

  /** The header byte by byte, its numbers lowest byte first, and the body behind it. */
  lemma PacketLayout(p: Packet)
    requires |p.session| == 16
    ensures var d := Encode(p);
            && |d| == 36 + |p.body| && d[..4] == [0x53, 0x44, 0x4F, 0x53] && d[4] == 1 && d[5] == 0
            && d[20..36] == p.session && d[36..] == p.body
            && (forall i | 0 <= i < 2 :: d[6 + i] == p.kind / Pow256(i) % 256)
            && (forall i | 0 <= i < 4 :: d[8 + i] == |p.body| / Pow256(i) % 256)
            && (forall i | 0 <= i < 8 :: d[12 + i] == p.sequence / Pow256(i) % 256)
  {
    var d := Encode(p);
    EncodedLength(p, 0);
    var kind, length, sequence := Le(p.kind, 2), Le(|p.body|, 4), Le(p.sequence, 8);
    assert Le(1, 1) == [1] && Le(0, 1) == [0] by {
      OneByte(1);
      OneByte(0);
    }
    assert d == MAGIC + ([1] + ([0] + (kind + (length + (sequence + (p.session + p.body))))));
    hide Le, Pow256;
    LeBytes(p.kind, 2);
    LeBytes(|p.body|, 4);
    LeBytes(p.sequence, 8);
    assert d[6..8] == kind && d[8..12] == length && d[12..20] == sequence;
    assert forall i | 0 <= i < 2 :: d[6 + i] == d[6..8][i];
    assert forall i | 0 <= i < 4 :: d[8 + i] == d[8..12][i];
    assert forall i | 0 <= i < 8 :: d[12 + i] == d[12..20][i];
  }

  lemma LeBytes(n: nat, k: nat)
    ensures forall i | 0 <= i < k :: Le(n, k)[i] == n / Pow256(i) % 256
  {
    forall i | 0 <= i < k
      ensures Le(n, k)[i] == n / Pow256(i) % 256
    {
      LeByte(n, k, i);
    }
  }

  /** Only the sixth byte depends on the minor version. */
  lemma MinorByte(p: Packet, minor: u8)
    ensures |Encode(p)| >= 6 && EncodeWith(p, minor) == Encode(p)[5 := minor]
  {
    var r4 := Le(p.kind, 2) + (Le(|p.body|, 4) + (Le(p.sequence, 8) + (p.session + p.body)));
    hide Le;
    assert Le(minor, 1) == [minor] && Le(0, 1) == [0] && Le(1, 1) == [1] by {
      OneByte(minor);
      OneByte(0);
      OneByte(1);
    }
    assert EncodeWith(p, minor) == MAGIC + ([1] + ([minor] + r4));
    assert Encode(p) == MAGIC + ([1] + ([0] + r4));
    assert MAGIC + ([1] + ([minor] + r4)) == (MAGIC + ([1] + ([0] + r4)))[5 := minor];
  }

  lemma OneByte(n: u8)
    ensures Le(n, 1) == [n]
  {
  }

  /** Every accepted packet is written back as it came, but for the minor version's byte. */
  lemma AcceptedRewritten(d: Bytes, limit: nat)
    requires Decode(d, limit).Ok?
    ensures |d| >= HEADER && Encode(Decode(d, limit).value) == d[5 := 0]
  {
    var p := Decode(d, limit).value;
    PacketBijection(d, limit, p);
    var minor: u8 :| d == EncodeWith(p, minor);
    MinorByte(p, minor);
    assert Encode(p)[5] == 0 by {
      MinorByte(p, 0);
    }
    assert Encode(p)[5 := minor][5 := 0] == Encode(p);
  }

  method EncodePacket(p: Packet) returns (d: Bytes)
    ensures d == Encode(p)
  {
    hide Le;
    var w := new Writer(MAGIC);
    w.Integer(1, 1);
    w.Integer(0, 1);
    w.Integer(p.kind, 2);
    w.Integer(|p.body|, 4);
    w.Integer(p.sequence, 8);
    w.data := w.data + p.session;
    w.data := w.data + p.body;
    d := w.data;
    Regroup(MAGIC, Le(1, 1), Le(0, 1), Le(p.kind, 2), Le(|p.body|, 4), Le(p.sequence, 8), p.session, p.body);
  }

  lemma Regroup(a: Bytes, b: Bytes, c: Bytes, d: Bytes, e: Bytes, f: Bytes, g: Bytes, h: Bytes)
    ensures a + b + c + d + e + f + g + h == a + (b + (c + (d + (e + (f + (g + h))))))
  {
    assert a + b + c + d + e + f + g + h == a + b + c + d + e + f + (g + h);
    assert a + b + c + d + e + f + (g + h) == a + b + c + d + e + (f + (g + h));
    assert a + b + c + d + e + (f + (g + h)) == a + b + c + d + (e + (f + (g + h)));
    assert a + b + c + d + (e + (f + (g + h))) == a + b + c + (d + (e + (f + (g + h))));
    assert a + b + c + (d + (e + (f + (g + h)))) == a + b + (c + (d + (e + (f + (g + h)))));
    assert a + b + (c + (d + (e + (f + (g + h))))) == a + (b + (c + (d + (e + (f + (g + h))))));
  }

  method ReadHeader(reader: Reader) returns (r: Result<Header, WireError>)
    requires reader.Valid()
    modifies reader
    ensures reader.Valid()
    ensures r.Err? ==> TakeHeader(old(reader.Rest())) == Err(r.error)
    ensures r.Ok? ==> TakeHeader(old(reader.Rest())) == Ok(Read(r.value, reader.Rest()))
  {
    hide FromLe, Le, Pow256, Take, TakeNum;
    Widths();
    var magic :- reader.TakeBytes(4);
    var major :- reader.Integer(1);
    var minor :- reader.Integer(1);
    var kind :- reader.Integer(2);
    var length :- reader.Integer(4);
    var sequence :- reader.Integer(8);
    var session :- reader.TakeBytes(16);
    return Ok(Header(magic, major, minor, kind, length, sequence, session));
  }

  method DecodePacket(d: Bytes, limit: nat) returns (r: Result<Packet, WireError>)
    ensures r == Decode(d, limit)
  {
    hide FromLe, Le, Pow256, TakeHeader;
    if |d| < HEADER || |d| > limit {
      return Err(BadLength);
    }
    var reader := new Reader(d);
    assert reader.Rest() == d;
    var header := ReadHeader(reader);
    HeaderEnough(d);
    HeaderSplits(d);
    var h := header.value;
    if h.magic != MAGIC {
      return Err(BadMagic);
    }
    if h.major != 1 {
      return Err(BadVersion);
    }
    if h.length != |d| - HEADER {
      return Err(BadLength);
    }
    assert reader.Rest()[..h.length] == reader.Rest();
    var body := reader.TakeBytes(h.length);
    return Ok(Packet(h.kind, h.sequence, h.session, body.value));
  }
}
