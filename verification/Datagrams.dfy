/** Sending a frame: the host cuts it into fragments, each in a datagram that fits the path. */
module Datagrams {
  import opened Base
  import opened Wire
  import opened Packets
  import opened Fragments
  import Messages

  const MAX_DATAGRAM: nat := 1200
  const OVERHEAD: nat := HEADER + 4 + 8 * 4 + 1 + 2 + 2 + 4 + 4
  const KIND: u16 := 15

  const FIELDS: seq<Field> := Messages.VIDEO_FRAGMENT

  function Values(f: VideoFragment): seq<Value> {
    [Num(f.generation), Num(f.frameId), Num(f.captureTimestamp), Num(f.encodeTimestamp), Num(f.sendTimestamp),
     Num(f.keyframe), Num(f.index), Num(f.count), Num(f.totalBytes), Data(f.data)]
  }

  lemma ValuesTyped(f: VideoFragment)
    ensures AllTyped(FIELDS, Values(f))
    ensures AllFit(FIELDS, Values(f)) <==> |f.data| <= MAX_FRAME
  {
    assert Fits(FIELDS[9], Values(f)[9]) <==> |f.data| <= MAX_FRAME;
  }

  ghost function Datagram(session: Bytes, f: VideoFragment): Bytes {
    ValuesTyped(f);
    Encode(Packet(KIND, 0, session, EncodeFields(FIELDS, Values(f))))
  }

  function FromValues(vs: seq<Value>): VideoFragment
    requires AllFit(FIELDS, vs)
  {
    assert forall i | 0 <= i < |FIELDS| :: Fits(FIELDS[i], vs[i]);
    ValuesWide(vs);
    VideoFragment(vs[0].n, vs[1].n, vs[2].n, vs[3].n, vs[4].n, vs[5].n, vs[6].n, vs[7].n, vs[8].n, vs[9].b)
  }

  lemma ValuesWide(vs: seq<Value>)
    requires AllFit(FIELDS, vs)
    ensures forall i | 0 <= i < 9 :: vs[i].Num? && vs[i].n >= 0
    ensures vs[0].n < U32 && vs[1].n < U32 * U32 && vs[2].n < U32 * U32 && vs[3].n < U32 * U32 && vs[4].n < U32 * U32
    ensures vs[5].n < 0x100 && vs[6].n < 0x1_0000 && vs[7].n < 0x1_0000 && vs[8].n < U32
    ensures vs[9].Data?
  {
    assert forall i | 0 <= i < |FIELDS| :: Fits(FIELDS[i], vs[i]);
    assert Fits(FIELDS[0], vs[0]) && Fits(FIELDS[1], vs[1]) && Fits(FIELDS[2], vs[2]) && Fits(FIELDS[3], vs[3]);
    assert Fits(FIELDS[4], vs[4]) && Fits(FIELDS[5], vs[5]) && Fits(FIELDS[6], vs[6]) && Fits(FIELDS[7], vs[7]);
    assert Fits(FIELDS[8], vs[8]) && Fits(FIELDS[9], vs[9]);
  }

  /** The client's reading of a datagram. */
  function Received(session: Bytes, d: Bytes): Option<VideoFragment> {
    var p := Decode(d, MAX_DATAGRAM);
    if p.Err? || p.value.session != session || p.value.kind != KIND then None
    else
      var vs := DecodeBody(FIELDS, p.value.body);
      if vs.Err? then None
      else
        CodecBijection(FIELDS, p.value.body, vs.value);
        Some(FromValues(vs.value))
  }

  /** What the client makes of a datagram: it is passed over, it ends the session, or it carries a fragment. */
  datatype Incoming = PassedOver | Malformed | Carried(f: VideoFragment)

  function Arrived(streaming: bool, session: Bytes, d: Bytes): Incoming {
    if |d| > MAX_DATAGRAM then Malformed
    else if !streaming then PassedOver
    else
      var p := Decode(d, MAX_DATAGRAM);
      if p.Err? then Malformed
      else if p.value.session != session then PassedOver
      else
        match Received(session, d)
        case None => Malformed
        case Some(f) => Carried(f)
  }

  method Read(streaming: bool, session: Bytes, d: Bytes) returns (r: Incoming)
    ensures r == Arrived(streaming, session, d)
  {
    hide Decode, Messages.Fields, DecodeBody;
    if |d| > MAX_DATAGRAM {
      return Malformed;
    }
    if !streaming {
      return PassedOver;
    }
    var p := DecodePacket(d, MAX_DATAGRAM);
    if p.Err? {
      return Malformed;
    }
    if p.value.session != session {
      return PassedOver;
    }
    if p.value.kind != KIND {
      return Malformed;
    }
    var reader := new Reader(p.value.body);
    var vs := reader.Message(FIELDS);
    if vs.Err? {
      return Malformed;
    }
    CodecBijection(FIELDS, p.value.body, vs.value);
    return Carried(FromValues(vs.value));
  }

  // Sizes

  function Size(t: Field, v: Value): nat {
    if v.Data? then 4 + |v.b| else Width(t)
  }

  function Sizes(ts: seq<Field>, vs: seq<Value>, k: nat): nat
    requires k <= |ts| == |vs|
  {
    if k == 0 then 0 else Sizes(ts, vs, k - 1) + Size(ts[k - 1], vs[k - 1])
  }

  lemma {:induction false} EncodedSize(ts: seq<Field>, vs: seq<Value>, k: nat)
    requires AllTyped(ts, vs) && k <= |ts|
    ensures |EncodeFields(ts[..k], vs[..k])| == Sizes(ts, vs, k)
  {
    hide Le, Typed;
    if k > 0 {
      EncodedSize(ts, vs, k - 1);
      assert ts[..k][..k - 1] == ts[..k - 1] && vs[..k][..k - 1] == vs[..k - 1];
    }
  }

  lemma BodySize(f: VideoFragment)
    ensures AllTyped(FIELDS, Values(f))
    ensures |EncodeFields(FIELDS, Values(f))| == OVERHEAD - HEADER + |f.data|
  {
    ValuesTyped(f);
    var vs := Values(f);
    EncodedSize(FIELDS, vs, 10);
    assert FIELDS[..10] == FIELDS && vs[..10] == vs;
    assert Sizes(FIELDS, vs, 1) == 4;
    assert Sizes(FIELDS, vs, 2) == 12;
    assert Sizes(FIELDS, vs, 3) == 20;
    assert Sizes(FIELDS, vs, 4) == 28;
    assert Sizes(FIELDS, vs, 5) == 36;
    assert Sizes(FIELDS, vs, 6) == 37;
    assert Sizes(FIELDS, vs, 7) == 39;
    assert Sizes(FIELDS, vs, 8) == 41;
    assert Sizes(FIELDS, vs, 9) == 45;
  }

  lemma DatagramSize(session: Bytes, f: VideoFragment)
    requires |session| == 16
    ensures |Datagram(session, f)| == OVERHEAD + |f.data|
  {
    BodySize(f);
    EncodedLength(Packet(KIND, 0, session, EncodeFields(FIELDS, Values(f))), 0);
  }

  /** A number of `width` bytes stands at this place, lowest byte first. */
  ghost predicate NumAt(d: Bytes, at: nat, width: nat, n: nat) {
    at + width <= |d| && forall i | 0 <= i < width :: d[at + i] == n / Pow256(i) % 256
  }

  /** Field `k` stands behind the ones before it. */
  lemma {:induction false} FieldStands(ts: seq<Field>, vs: seq<Value>, k: nat)
    requires AllTyped(ts, vs) && k < |ts|
    ensures var d, at, f := EncodeFields(ts, vs), Sizes(ts, vs, k), EncodeField(ts[k], vs[k]);
            at + |f| <= |d| && d[at..at + |f|] == f
    decreases |ts|
  {
    hide EncodeField, Size, Typed;
    var n := |ts| - 1;
    EncodedSize(ts[..n], vs[..n], n);
    assert ts[..n][..n] == ts[..n] && vs[..n][..n] == vs[..n];
    SizesBefore(ts, vs, n, n);
    if k < n {
      FieldStands(ts[..n], vs[..n], k);
      SizesBefore(ts, vs, n, k);
    }
  }

  lemma {:induction false} SizesBefore(ts: seq<Field>, vs: seq<Value>, n: nat, k: nat)
    requires |ts| == |vs| && k <= n <= |ts|
    ensures Sizes(ts[..n], vs[..n], k) == Sizes(ts, vs, k)
  {
    if k > 0 {
      SizesBefore(ts, vs, n, k - 1);
    }
  }

  /** Field `k` of a datagram's body, a number of the fragment, stands at its offset behind the header. */
  lemma NumberStands(d: Bytes, vs: seq<Value>, k: nat, at: nat, width: nat, n: nat)
    requires AllTyped(FIELDS, vs) && k < |FIELDS| && at == Sizes(FIELDS, vs, k)
    requires |d| >= 36 && d[36..] == EncodeFields(FIELDS, vs) && Numbered(FIELDS[k], vs[k], width, n)
    ensures NumAt(d, 36 + at, width, n)
  {
    var e := EncodeField(FIELDS[k], vs[k]);
    FieldStands(FIELDS, vs, k);
    FieldLayout(FIELDS[k], vs[k]);
    hide *;
    BytesStand(d, e, at, n);
  }

  lemma BytesStand(d: Bytes, e: Bytes, at: nat, n: nat)
    requires |d| >= 36 && at + |e| <= |d| - 36 && d[36..][at..at + |e|] == e
    requires forall i | 0 <= i < |e| :: e[i] == n / Pow256(i) % 256
    ensures NumAt(d, 36 + at, |e|, n)
  {
    hide Pow256;
    forall i | 0 <= i < |e|
      ensures d[36 + at + i] == n / Pow256(i) % 256
    {
      assert d[36..][at..at + |e|][i] == e[i];
    }
  }

  lemma DataStands(d: Bytes, vs: seq<Value>, data: Bytes)
    requires AllTyped(FIELDS, vs) && Sizes(FIELDS, vs, 9) == 45 && vs[9] == Data(data)
    requires |d| == 85 + |data| && d[36..] == EncodeFields(FIELDS, vs)
    ensures NumAt(d, 81, 4, |data|) && d[85..] == data
  {
    var e := EncodeField(Blob, vs[9]);
    FieldStands(FIELDS, vs, 9);
    FieldLayout(Blob, vs[9]);
    hide EncodeField, EncodeFields, Sizes, Typed, Pow256;
    assert d[81..] == e by {
      assert d[36..][45..45 + |e|] == d[81..];
    }
    assert d[85..] == e[4..];
    assert forall i | 0 <= i < 4 :: d[81 + i] == e[i];
  }

  lemma FieldPlaces(f: VideoFragment)
    ensures var vs := Values(f);
            && Sizes(FIELDS, vs, 0) == 0 && Sizes(FIELDS, vs, 1) == 4 && Sizes(FIELDS, vs, 2) == 12
            && Sizes(FIELDS, vs, 3) == 20 && Sizes(FIELDS, vs, 4) == 28 && Sizes(FIELDS, vs, 5) == 36
            && Sizes(FIELDS, vs, 6) == 37 && Sizes(FIELDS, vs, 7) == 39 && Sizes(FIELDS, vs, 8) == 41
            && Sizes(FIELDS, vs, 9) == 45
  {
    var vs := Values(f);
    assert Sizes(FIELDS, vs, 1) == 4;
    assert Sizes(FIELDS, vs, 2) == 12;
    assert Sizes(FIELDS, vs, 3) == 20;
    assert Sizes(FIELDS, vs, 4) == 28;
    assert Sizes(FIELDS, vs, 5) == 36;
    assert Sizes(FIELDS, vs, 6) == 37;
    assert Sizes(FIELDS, vs, 7) == 39;
    assert Sizes(FIELDS, vs, 8) == 41;
  }

  lemma FieldTypes(f: VideoFragment)
    ensures var vs := Values(f);
            && Numbered(FIELDS[0], vs[0], 4, f.generation) && Numbered(FIELDS[1], vs[1], 8, f.frameId)
            && Numbered(FIELDS[2], vs[2], 8, f.captureTimestamp) && Numbered(FIELDS[3], vs[3], 8, f.encodeTimestamp)
            && Numbered(FIELDS[4], vs[4], 8, f.sendTimestamp) && Numbered(FIELDS[5], vs[5], 1, f.keyframe)
            && Numbered(FIELDS[6], vs[6], 2, f.index) && Numbered(FIELDS[7], vs[7], 2, f.count)
            && Numbered(FIELDS[8], vs[8], 4, f.totalBytes) && vs[9] == Data(f.data)
  {
  }

  /** A datagram's packet byte by byte: its kind, then the fragment's fields, each at its own place, and its bytes. */
  lemma FragmentLayout(session: Bytes, f: VideoFragment)
    requires |session| == 16
    ensures var d := Datagram(session, f);
            && |d| == 85 + |f.data| && d[6] == 15 && d[7] == 0 && d[20..36] == session && d[85..] == f.data
            && NumAt(d, 36, 4, f.generation) && NumAt(d, 40, 8, f.frameId) && NumAt(d, 48, 8, f.captureTimestamp)
            && NumAt(d, 56, 8, f.encodeTimestamp) && NumAt(d, 64, 8, f.sendTimestamp) && NumAt(d, 72, 1, f.keyframe)
            && NumAt(d, 73, 2, f.index) && NumAt(d, 75, 2, f.count) && NumAt(d, 77, 4, f.totalBytes)
            && NumAt(d, 81, 4, |f.data|)
  {
    var vs := Values(f);
    DatagramPacket(session, f);
    BodySize(f);
    FieldPlaces(f);
    FieldTypes(f);
    var d := Datagram(session, f);
    hide *;
    NumberStands(d, vs, 0, 0, 4, f.generation);
    NumberStands(d, vs, 1, 4, 8, f.frameId);
    NumberStands(d, vs, 2, 12, 8, f.captureTimestamp);
    NumberStands(d, vs, 3, 20, 8, f.encodeTimestamp);
    NumberStands(d, vs, 4, 28, 8, f.sendTimestamp);
    NumberStands(d, vs, 5, 36, 1, f.keyframe);
    NumberStands(d, vs, 6, 37, 2, f.index);
    NumberStands(d, vs, 7, 39, 2, f.count);
    NumberStands(d, vs, 8, 41, 4, f.totalBytes);
    DataStands(d, vs, f.data);
  }

  lemma DatagramPacket(session: Bytes, f: VideoFragment)
    requires |session| == 16
    ensures AllTyped(FIELDS, Values(f))
    ensures var d := Datagram(session, f);
            && |d| == 85 + |f.data| && d[6] == 15 && d[7] == 0 && d[20..36] == session
            && d[36..] == EncodeFields(FIELDS, Values(f))
  {
    ValuesTyped(f);
    DatagramSize(session, f);
    var p := Packet(KIND, 0, session, EncodeFields(FIELDS, Values(f)));
    PacketLayout(p);
    Widths();
    var d := Encode(p);
    assert d[6 + 0] == p.kind / Pow256(0) % 256 && d[6 + 1] == p.kind / Pow256(1) % 256;
    hide EncodeFields, EncodeWith;
  }

  lemma ValuesBack(f: VideoFragment)
    requires AllFit(FIELDS, Values(f))
    ensures FromValues(Values(f)) == f
  {
  }

  lemma ValuesAgain(vs: seq<Value>)
    requires AllFit(FIELDS, vs)
    ensures Values(FromValues(vs)) == vs
  {
    ValuesWide(vs);
  }

  /** A packet that carries the fragment, with any sequence number and minor version. */
  ghost predicate Carries(session: Bytes, d: Bytes, f: VideoFragment, sequence: u64, minor: u8)
  {
    ValuesTyped(f);
    d == EncodeWith(Packet(KIND, sequence, session, EncodeFields(FIELDS, Values(f))), minor)
  }

  /** A datagram is taken for a fragment exactly when it carries it and fits; the sequence number is not looked at. */
  lemma DatagramBijection(session: Bytes, d: Bytes, f: VideoFragment)
    ensures Received(session, d) == Some(f) <==>
            && |session| == 16 && OVERHEAD + |f.data| <= MAX_DATAGRAM
            && exists sequence: u64, minor: u8 :: Carries(session, d, f, sequence, minor)
  {
    if Received(session, d) == Some(f) {
      ReceivedCarries(session, d, f);
    }
    if |session| == 16 && OVERHEAD + |f.data| <= MAX_DATAGRAM
       && exists sequence: u64, minor: u8 :: Carries(session, d, f, sequence, minor) {
      var sequence: u64, minor: u8 :| Carries(session, d, f, sequence, minor);
      CarriedReceived(session, d, f, sequence, minor);
    }
  }

  lemma ReceivedCarries(session: Bytes, d: Bytes, f: VideoFragment)
    requires Received(session, d) == Some(f)
    ensures |session| == 16 && OVERHEAD + |f.data| <= MAX_DATAGRAM
    ensures exists sequence: u64, minor: u8 :: Carries(session, d, f, sequence, minor)
  {
    hide Decode, DecodeBody, EncodeFields, EncodeWith, AllFit, AllTyped;
    var p := Decode(d, MAX_DATAGRAM).value;
    PacketBijection(d, MAX_DATAGRAM, p);
    var minor: u8 :| d == EncodeWith(p, minor);
    var vs := DecodeBody(FIELDS, p.body).value;
    CodecBijection(FIELDS, p.body, vs);
    ValuesAgain(vs);
    BodySize(f);
    assert Carries(session, d, f, p.sequence, minor);
  }

  lemma CarriedReceived(session: Bytes, d: Bytes, f: VideoFragment, sequence: u64, minor: u8)
    requires |session| == 16 && OVERHEAD + |f.data| <= MAX_DATAGRAM && Carries(session, d, f, sequence, minor)
    ensures Received(session, d) == Some(f)
  {
    hide Decode, DecodeBody, EncodeFields, EncodeWith, AllFit, AllTyped;
    ValuesTyped(f);
    BodySize(f);
    var p := Packet(KIND, sequence, session, EncodeFields(FIELDS, Values(f)));
    PacketBijection(d, MAX_DATAGRAM, p);
    CodecBijection(FIELDS, p.body, Values(f));
    ValuesBack(f);
  }

  /** What the host sends is received as it was. */
  lemma DatagramReceived(session: Bytes, f: VideoFragment)
    requires |session| == 16 && OVERHEAD + |f.data| <= MAX_DATAGRAM
    ensures Received(session, Datagram(session, f)) == Some(f)
  {
    hide Received, EncodeWith, EncodeFields;
    assert Carries(session, Datagram(session, f), f, 0, 0);
    DatagramBijection(session, Datagram(session, f), f);
  }

  /** Bytes that are a packet, whatever minor version it names. */
  ghost predicate IsPacket(d: Bytes, p: Packet) {
    |p.session| == 16 && exists minor: u8 :: d == EncodeWith(p, minor)
  }

  /** Within the limit, a packet is one that is read. */
  lemma PacketRead(d: Bytes)
    requires |d| <= MAX_DATAGRAM
    ensures forall p: Packet :: IsPacket(d, p) <==> Decode(d, MAX_DATAGRAM) == Ok(p)
  {
    hide Decode, EncodeWith;
    forall p: Packet
      ensures IsPacket(d, p) <==> Decode(d, MAX_DATAGRAM) == Ok(p)
    {
      PacketBijection(d, MAX_DATAGRAM, p);
      if IsPacket(d, p) {
        var minor: u8 :| d == EncodeWith(p, minor);
        EncodedLength(p, minor);
      }
    }
  }

  /**
   A datagram of at most 1200 bytes is passed over while not streaming, and later if it is a packet of another session.
   It carries a fragment only if it is this session's packet for one. Any other ends the session.
   */
  lemma ArrivedExactly(streaming: bool, session: Bytes, d: Bytes)
    requires |session| == 16
    ensures var r := Arrived(streaming, session, d);
            && (r.PassedOver? <==>
                |d| <= 1200 && (streaming ==> exists p: Packet :: IsPacket(d, p) && p.session != session))
            && (forall f: VideoFragment :: r == Carried(f) <==>
                  && streaming && |d| <= 1200
                  && exists sequence: u64, minor: u8 :: Carries(session, d, f, sequence, minor))
  {
    hide Decode, Received, EncodeWith, EncodeFields, DecodeBody;
    var r := Arrived(streaming, session, d);
    if |d| <= MAX_DATAGRAM {
      PacketRead(d);
    }
    forall f: VideoFragment
      ensures r == Carried(f) <==> && streaming && |d| <= 1200
                                   && exists sequence: u64, minor: u8 :: Carries(session, d, f, sequence, minor)
    {
      DatagramBijection(session, d, f);
      CarriedSize(session, d, f);
      if Received(session, d) == Some(f) {
        CarriedReads(session, d, f);
      }
    }
  }

  lemma CarriedSize(session: Bytes, d: Bytes, f: VideoFragment)
    requires |session| == 16
    ensures forall sequence: u64, minor: u8 :: Carries(session, d, f, sequence, minor) ==> |d| == OVERHEAD + |f.data|
  {
    BodySize(f);
    hide EncodeWith, EncodeFields;
    forall sequence: u64, minor: u8 | Carries(session, d, f, sequence, minor)
      ensures |d| == OVERHEAD + |f.data|
    {
      EncodedLength(Packet(KIND, sequence, session, EncodeFields(FIELDS, Values(f))), minor);
    }
  }

  lemma CarriedReads(session: Bytes, d: Bytes, f: VideoFragment)
    requires Received(session, d) == Some(f)
    ensures Decode(d, MAX_DATAGRAM).Ok? && Decode(d, MAX_DATAGRAM).value.session == session
  {
    hide Decode, DecodeBody;
  }

  // Sending a frame

  datatype SendOutcome = Queued | Failed | Late

  datatype SendError = FrameTooLarge | NoDatagrams | PathTooSmall | BadCount | SendFailed

  /** The checks before anything is sent, in order, and the chunk size they settle on. */
  function CutFor(f: VideoFrame, limit: Option<nat>): (r: Result<Cut, SendError>)
    ensures r.Ok? ==> Sendable(r.value) && r.value.frame == f && limit.Some?
    ensures r.Ok? ==> OVERHEAD + r.value.chunk <= limit.value && OVERHEAD + r.value.chunk <= MAX_DATAGRAM
  {
    if |f.data| > MAX_FRAME then Err(FrameTooLarge)
    else if limit.None? then Err(NoDatagrams)
    else
      var mtu := if limit.value < MAX_DATAGRAM then limit.value else MAX_DATAGRAM;
      if mtu <= OVERHEAD then Err(PathTooSmall)
      else
        var chunk := if mtu - OVERHEAD < MAX_FRAGMENT then mtu - OVERHEAD else MAX_FRAGMENT;
        var count := DivCeil(|f.data|, chunk);
        if count == 0 || count > MAX_FRAGMENTS then Err(BadCount) else Ok(Cut(f, chunk))
  }

  /** Which check fails first, and that the chunk is the largest that the path and the fragment's own limit allow. */
  lemma CutExactly(f: VideoFrame, limit: Option<nat>)
    ensures var r, n := CutFor(f, limit), |f.data|;
            var best := if limit.Some? && limit.value - 85 < 1100 then limit.value - 85 else 1100;
            if n > 2 * 1024 * 1024 then r == Err(FrameTooLarge)
            else if limit.None? then r == Err(NoDatagrams)
            else if limit.value <= 85 then r == Err(PathTooSmall)
            else if n == 0 || n > 4096 * best then r == Err(BadCount)
            else r == Ok(Cut(f, best))
  {
    if |f.data| <= MAX_FRAME && limit.Some? && limit.value > OVERHEAD {
      var best := if limit.value - OVERHEAD < MAX_FRAGMENT then limit.value - OVERHEAD else MAX_FRAGMENT;
      CountBounds(|f.data|, best);
    }
  }

  lemma CountBounds(n: nat, chunk: nat)
    requires chunk > 0
    ensures DivCeil(n, chunk) == 0 <==> n == 0
    ensures DivCeil(n, chunk) > 4096 <==> n > 4096 * chunk
  {
    var q := DivCeil(n, chunk);
    assert q * chunk <= n + chunk - 1 < q * chunk + chunk;
    MulGrows(chunk, 4097, q);
    MulGrows(chunk, q, 4096);
    MulGrows(chunk, 1, q);
  }

  /** The datagrams sent are the frame's first fragments, each within the path's limit. */
  ghost predicate SentPrefix(session: Bytes, c: Cut, limit: nat, stamp: nat -> u64, sent: seq<Bytes>)
    requires Sendable(c)
  {
    && |sent| <= Count(c)
    && forall i | 0 <= i < |sent| :: SentAs(session, c, limit, i, stamp(i), sent[i])
  }

  ghost predicate SentAs(session: Bytes, c: Cut, limit: nat, i: nat, stamp: u64, d: Bytes)
    requires Sendable(c) && i < Count(c)
  {
    d == Datagram(session, Fragment(c, i, stamp)) && |d| <= limit && |d| <= MAX_DATAGRAM
  }

  lemma FragmentFits(session: Bytes, c: Cut, i: nat, stamp: u64)
    requires Sendable(c) && i < Count(c) && |session| == 16
    ensures |Datagram(session, Fragment(c, i, stamp))| == OVERHEAD + |Chunk(c, i)| <= OVERHEAD + c.chunk
  {
    OffsetStep(c, i);
    DatagramSize(session, Fragment(c, i, stamp));
  }

  /**
   Sends a frame. `limit` is the path's datagram limit, `now` the time of the call, and `stamp` and
   `outcome` give each datagram's send time and what became of it.
   */
  method SendFrame(session: Bytes, f: VideoFrame, limit: Option<nat>, now: u64, stamp: nat -> u64,
    outcome: nat -> SendOutcome)
    returns (r: Result<bool, SendError>, sent: seq<Bytes>)
    requires |session| == 16
    ensures CutFor(f, limit).Err? ==> r == Err(CutFor(f, limit).error) && sent == []
    ensures CutFor(f, limit).Ok? ==>
              var c := CutFor(f, limit).value;
              && SentPrefix(session, c, limit.value, stamp, sent)
              && (forall i | 0 <= i < |sent| :: outcome(i) == Queued)
              && (now - f.captureTimestamp > 80_000 ==> r == Ok(false) && sent == [])
              && (now - f.captureTimestamp <= 80_000 ==>
                    && (r == Ok(true) <==> |sent| == Count(c))
                    && (r == Ok(false) <==> |sent| < Count(c) && outcome(|sent|) == Late)
                    && (r.Err? <==> |sent| < Count(c) && outcome(|sent|) == Failed))
  {
    hide Encode, EncodeFields;
    sent := [];
    if |f.data| > MAX_FRAME {
      return Err(FrameTooLarge), sent;
    }
    if limit.None? {
      return Err(NoDatagrams), sent;
    }
    var mtu := if limit.value < MAX_DATAGRAM then limit.value else MAX_DATAGRAM;
    if mtu <= OVERHEAD {
      return Err(PathTooSmall), sent;
    }
    var chunk := if mtu - OVERHEAD < MAX_FRAGMENT then mtu - OVERHEAD else MAX_FRAGMENT;
    var count := DivCeil(|f.data|, chunk);
    if !(count > 0 && count <= MAX_FRAGMENTS) {
      return Err(BadCount), sent;
    }
    if now > f.captureTimestamp && now - f.captureTimestamp > 80_000 {
      return Ok(false), sent;
    }
    hide Count, DivCeil, Sendable;
    r, sent := SendFragments(session, Cut(f, chunk), limit.value, stamp, outcome);
  }

  lemma OneMoreSent(session: Bytes, c: Cut, limit: nat, stamp: nat -> u64, sent: seq<Bytes>)
    requires Sendable(c) && SentPrefix(session, c, limit, stamp, sent) && |sent| < Count(c)
    requires |session| == 16 && OVERHEAD + c.chunk <= limit && OVERHEAD + c.chunk <= MAX_DATAGRAM
    ensures SentPrefix(session, c, limit, stamp, sent + [Datagram(session, Fragment(c, |sent|, stamp(|sent|)))])
  {
    hide *;
    var n := |sent|;
    SentNow(session, c, limit, n, stamp(n));
    SentThen(session, c, limit, stamp, sent, Datagram(session, Fragment(c, n, stamp(n))));
  }

  lemma SentNow(session: Bytes, c: Cut, limit: nat, i: nat, stamp: u64)
    requires Sendable(c) && i < Count(c) && |session| == 16
    requires OVERHEAD + c.chunk <= limit && OVERHEAD + c.chunk <= MAX_DATAGRAM
    ensures SentAs(session, c, limit, i, stamp, Datagram(session, Fragment(c, i, stamp)))
  {
    FragmentFits(session, c, i, stamp);
    hide Datagram, Fragment, Sendable, Count, Chunk;
  }

  lemma SentThen(session: Bytes, c: Cut, limit: nat, stamp: nat -> u64, sent: seq<Bytes>, d: Bytes)
    requires Sendable(c) && SentPrefix(session, c, limit, stamp, sent) && |sent| < Count(c)
    requires SentAs(session, c, limit, |sent|, stamp(|sent|), d)
    ensures SentPrefix(session, c, limit, stamp, sent + [d])
  {
    hide SentAs, Datagram, Fragment, Sendable, Count;
  }

  ghost predicate AllQueued(outcome: nat -> SendOutcome, n: nat) {
    forall i | 0 <= i < n :: outcome(i) == Queued
  }

  lemma OneMoreQueued(outcome: nat -> SendOutcome, n: nat)
    requires AllQueued(outcome, n) && outcome(n) == Queued
    ensures AllQueued(outcome, n + 1)
  {
  }

  /** Sends the fragments one by one until the path refuses one or the deadline passes. */
  method SendFragments(session: Bytes, c: Cut, limit: nat, stamp: nat -> u64, outcome: nat -> SendOutcome)
    returns (r: Result<bool, SendError>, sent: seq<Bytes>)
    requires |session| == 16 && Sendable(c) && OVERHEAD + c.chunk <= limit && OVERHEAD + c.chunk <= MAX_DATAGRAM
    ensures SentPrefix(session, c, limit, stamp, sent) && AllQueued(outcome, |sent|)
    ensures r == Ok(true) <==> |sent| == Count(c)
    ensures r == Ok(false) <==> |sent| < Count(c) && outcome(|sent|) == Late
    ensures r.Err? <==> |sent| < Count(c) && outcome(|sent|) == Failed
    ensures r.Err? ==> r.error == SendFailed
  {
    sent := [];
    var rest := c.frame.data;
    var count := DivCeil(|rest|, c.chunk);
    assert count == Count(c) && rest == rest[Offset(c, 0)..] && SentPrefix(session, c, limit, stamp, sent);
    assert AllQueued(outcome, 0);
    hide *;
    for index := 0 to count
      invariant |sent| == index && SentPrefix(session, c, limit, stamp, sent) && AllQueued(outcome, index)
      invariant Offset(c, index) <= |c.frame.data| && rest == c.frame.data[Offset(c, index)..]
    {
      var d;
      d, rest := SendChunk(session, c, index, stamp(index), rest);
      match outcome(index)
      case Failed => return Err(SendFailed), sent;
      case Late => return Ok(false), sent;
      case Queued =>
        OneMoreSent(session, c, limit, stamp, sent);
        OneMoreQueued(outcome, index);
        sent := sent + [d];
    }
    return Ok(true), sent;
  }

  /** Takes the next chunk off the frame's bytes and encodes its datagram. */
  method SendChunk(session: Bytes, c: Cut, index: nat, stamp: u64, rest: Bytes) returns (d: Bytes, left: Bytes)
    requires Sendable(c) && index < Count(c) && Offset(c, index) <= |c.frame.data|
    requires rest == c.frame.data[Offset(c, index)..]
    ensures d == Datagram(session, Fragment(c, index, stamp))
    ensures Offset(c, index + 1) <= |c.frame.data| && left == c.frame.data[Offset(c, index + 1)..]
  {
    var f := c.frame;
    OffsetStep(c, index);
    var n := if |rest| < c.chunk then |rest| else c.chunk;
    var data := rest[..n];
    left := rest[n..];
    assert Offset(c, index) + n == Offset(c, index + 1);
    assert data == f.data[Offset(c, index)..Offset(c, index + 1)];
    var v := VideoFragment(f.generation, f.frameId, f.captureTimestamp, f.encodeTimestamp, stamp, f.keyframe,
                           index, DivCeil(|f.data|, c.chunk), |f.data|, data);
    ValuesTyped(v);
    var w := new Writer([]);
    w.Message(FIELDS, Values(v));
    d := EncodePacket(Packet(KIND, 0, session, w.data));
    assert [] + EncodeFields(FIELDS, Values(v)) == EncodeFields(FIELDS, Values(v));
  }

  /** Every datagram of a sent frame reaches the client, if at all, as one of its genuine fragments. */
  lemma SentGenuine(session: Bytes, cuts: map<u64, Cut>, id: u64, i: nat, stamp: u64)
    requires |session| == 16 && Sent(cuts) && id in cuts && i < Count(cuts[id])
             && OVERHEAD + cuts[id].chunk <= MAX_DATAGRAM
    ensures var r := Received(session, Datagram(session, Fragment(cuts[id], i, stamp)));
            r.Some? && Genuine(cuts, r.value)
  {
    FragmentFits(session, cuts[id], i, stamp);
    DatagramSize(session, Fragment(cuts[id], i, stamp));
    hide Received, Datagram, Chunk;
    DatagramReceived(session, Fragment(cuts[id], i, stamp));
  }
}
