/**
 Packets on a reliable byte stream. The client's incremental parser and the host's exact reads both
 deliver the packets of one reference parse, however the stream is cut up.
 */
module Framing {
  import opened Base
  import opened Wire
  import opened Packets

  // The reference parse

  /** What stands at the front of a stream: too little to tell, something refused, or a packet. */
  datatype Front = Partly | Refused | Whole(packet: Packet, rest: Bytes)

  function FirstPacket(d: Bytes): Front {
    if |d| < HEADER then Partly
    else if d[..4] != MAGIC then Refused
    else
      var length := FromLe(d[8..12]) + HEADER;
      if length > MAX_CONTROL then Refused
      else if |d| < length then Partly
      else
        var p := Decode(d[..length], MAX_CONTROL);
        if p.Err? then Refused else Whole(p.value, d[length..])
  }

  /** The packets of a stream, what is left behind them, and whether that is refused. */
  datatype Parsed = Parsed(packets: seq<Packet>, rest: Bytes, refused: bool)

  function Parse(d: Bytes): Parsed
    decreases |d|
  {
    match FirstPacket(d)
    case Partly => Parsed([], d, false)
    case Refused => Parsed([], d, true)
    case Whole(p, rest) =>
      Shorter(d);
      var more := Parse(rest);
      Parsed([p] + more.packets, more.rest, more.refused)
  }

  lemma Shorter(d: Bytes)
    ensures FirstPacket(d).Whole? ==> |FirstPacket(d).rest| < |d|
  {
    hide Decode, FromLe;
  }

  /** A packet that the stream takes. */
  predicate Carriable(p: Packet) {
    |p.session| == 16 && 36 + |p.body| <= 65_536
  }

  lemma LengthBytes(p: Packet, minor: nat, rest: Bytes)
    requires |p.session| == 16
    ensures var d := EncodeWith(p, minor) + rest;
            |d| >= 36 + |p.body| && d[..4] == MAGIC && d[8..12] == Le(|p.body|, 4)
            && d[..36 + |p.body|] == EncodeWith(p, minor) && d[36 + |p.body|..] == rest
  {
    EncodedLength(p, minor);
    var a, b, c, k, n := MAGIC, Le(1, 1), Le(minor, 1), Le(p.kind, 2), Le(|p.body|, 4);
    var tail := Le(p.sequence, 8) + (p.session + p.body);
    EncodeWithFields(p, minor);
    hide Le, EncodeWith;
    assert EncodeWith(p, minor) == ((((a + b) + c) + k) + n) + tail;
    assert |((a + b) + c) + k| == 8;
  }

  /**
   A packet stands at the front of a stream exactly if the stream begins with its encoding, under any minor version; it
   is too early to tell exactly while the header, or the bytes it announces, are not all there.
   */
  lemma FirstExactly(d: Bytes)
    ensures forall p: Packet, rest: Bytes :: FirstPacket(d) == Whole(p, rest) <==>
              Carriable(p) && exists minor: u8 :: d == EncodeWith(p, minor) + rest
    ensures FirstPacket(d).Partly? <==>
              || |d| < 36
              || (d[..4] == [0x53, 0x44, 0x4F, 0x53] && |d| < 36 + FromLe(d[8..12]) <= 65_536)
  {
    hide Decode, EncodeWith, FromLe, FirstPacket;
    forall p: Packet, rest: Bytes
      ensures FirstPacket(d) == Whole(p, rest) <==>
              Carriable(p) && exists minor: u8 :: d == EncodeWith(p, minor) + rest
    {
      if FirstPacket(d) == Whole(p, rest) {
        WholeBegins(d, p, rest);
      }
      if Carriable(p) && exists minor: u8 :: d == EncodeWith(p, minor) + rest {
        var minor: u8 :| d == EncodeWith(p, minor) + rest;
        BeginsWhole(p, minor, rest);
      }
    }
    PartlyExactly(d);
  }

  lemma WholeBegins(d: Bytes, p: Packet, rest: Bytes)
    requires FirstPacket(d) == Whole(p, rest)
    ensures Carriable(p) && exists minor: u8 :: d == EncodeWith(p, minor) + rest
  {
    hide Decode, EncodeWith, FromLe;
    var length := FromLe(d[8..12]) + HEADER;
    PacketBijection(d[..length], MAX_CONTROL, p);
    var minor: u8 :| d[..length] == EncodeWith(p, minor);
    assert d == d[..length] + d[length..];
  }

  lemma BeginsWhole(p: Packet, minor: u8, rest: Bytes)
    requires Carriable(p)
    ensures FirstPacket(EncodeWith(p, minor) + rest) == Whole(p, rest)
  {
    LengthBytes(p, minor, rest);
    Widths();
    FromLeLe(|p.body|, 4);
    PacketBijection(EncodeWith(p, minor), MAX_CONTROL, p);
    hide Decode, EncodeWith, FromLe, Le, Pow256;
  }

  lemma PartlyExactly(d: Bytes)
    ensures FirstPacket(d).Partly? <==>
              || |d| < 36
              || (d[..4] == [0x53, 0x44, 0x4F, 0x53] && |d| < 36 + FromLe(d[8..12]) <= 65_536)
  {
    hide Decode, FromLe;
  }

  /** Packets written one after the other. */
  function Written(ps: seq<Packet>): Bytes {
    if ps == [] then [] else Encode(ps[0]) + Written(ps[1..])
  }

  /** What is written to the stream is what comes out of it. */
  lemma {:induction false} WrittenParsed(ps: seq<Packet>)
    requires forall i | 0 <= i < |ps| :: Carriable(ps[i])
    ensures Parse(Written(ps)) == Parsed(ps, [], false)
    decreases |ps|
  {
    if ps == [] {
      assert FirstPacket([]).Partly?;
    } else {
      var p, rest := ps[0], Written(ps[1..]);
      WrittenParsed(ps[1..]);
      BeginsWhole(p, 0, rest);
      hide FirstPacket, EncodeWith;
      assert Written(ps) == EncodeWith(p, 0) + rest;
      WholeThen(Written(ps), p, rest);
      assert [p] + ps[1..] == ps;
    }
  }

  /** The bytes are these packets, each encoded under some minor version, and then the rest. */
  ghost predicate Laid(d: Bytes, ps: seq<Packet>, rest: Bytes)
    decreases |ps|
  {
    if ps == [] then d == rest
    else
      exists minor: u8, tail: Bytes ::
        Carriable(ps[0]) && d == EncodeWith(ps[0], minor) + tail && Laid(tail, ps[1..], rest)
  }

  /** What comes out of a stream is what stands in it, and it stops only where it must. */
  lemma {:induction false} ParsedLaid(d: Bytes)
    ensures var r := Parse(d);
            && Laid(d, r.packets, r.rest)
            && (if r.refused then FirstPacket(r.rest).Refused? else FirstPacket(r.rest).Partly?)
    decreases |d|
  {
    hide FirstPacket, EncodeWith;
    match FirstPacket(d)
    case Partly =>
    case Refused =>
    case Whole(p, rest) =>
      Shorter(d);
      FirstExactly(d);
      WholeThen(d, p, rest);
      ParsedLaid(rest);
      var r := Parse(rest);
      var minor: u8 :| d == EncodeWith(p, minor) + rest;
      hide Parse, Laid;
      LaidMore(p, minor, rest, r.packets, r.rest);
  }

  lemma LaidMore(p: Packet, minor: u8, tail: Bytes, ps: seq<Packet>, rest: Bytes)
    requires Carriable(p) && Laid(tail, ps, rest)
    ensures Laid(EncodeWith(p, minor) + tail, [p] + ps, rest)
  {
    hide EncodeWith;
    var q := [p] + ps;
    assert q[0] == p && q[1..] == ps && q != [];
  }

  /** More bytes behind a packet, or behind something refused, do not change it. */
  lemma FirstStays(d: Bytes, x: Bytes)
    ensures FirstPacket(d).Refused? ==> FirstPacket(d + x).Refused?
    ensures FirstPacket(d).Whole? ==>
              FirstPacket(d + x) == Whole(FirstPacket(d).packet, FirstPacket(d).rest + x)
  {
    if |d| >= HEADER {
      assert (d + x)[..4] == d[..4];
      assert (d + x)[8..12] == d[8..12];
      var length := FromLe(d[8..12]) + HEADER;
      if length <= |d| {
        assert (d + x)[..length] == d[..length];
        assert (d + x)[length..] == d[length..] + x;
      }
    }
  }

  /** Parsing what is left together with what comes next continues the parse. */
  lemma {:induction false} ParseContinues(d: Bytes, x: Bytes)
    ensures var a := Parse(d);
            if a.refused then Parse(d + x).refused && Parse(d + x).packets == a.packets
            else
              var b := Parse(a.rest + x);
              Parse(d + x) == Parsed(a.packets + b.packets, b.rest, b.refused)
    decreases |d|
  {
    hide FirstPacket;
    FirstStays(d, x);
    Shorter(d);
    match FirstPacket(d) {
      case Partly =>
        assert [] + Parse(d + x).packets == Parse(d + x).packets;
      case Refused =>
      case Whole(p, rest) =>
        WholeThen(d, p, rest);
        WholeThen(d + x, p, rest + x);
        ParseContinues(rest, x);
        hide Parse;
        var a := Parse(rest);
        if !a.refused {
          var b := Parse(a.rest + x);
          assert [p] + (a.packets + b.packets) == ([p] + a.packets) + b.packets;
        }
    }
  }

  lemma WholeThen(d: Bytes, p: Packet, rest: Bytes)
    requires FirstPacket(d) == Whole(p, rest)
    ensures Parse(d) == Parsed([p] + Parse(rest).packets, Parse(rest).rest, Parse(rest).refused)
  {
    hide FirstPacket;
  }

  /** What is left without being refused is less than one packet of the largest size. */
  lemma {:induction false} LeftSmall(d: Bytes)
    ensures !Parse(d).refused ==> |Parse(d).rest| < MAX_CONTROL && FirstPacket(Parse(d).rest).Partly?
    decreases |d|
  {
    match FirstPacket(d) {
      case Partly =>
      case Refused =>
      case Whole(p, rest) =>
        Shorter(d);
        hide FirstPacket;
        LeftSmall(rest);
    }
  }

  // The client's parser

  datatype ParserError = BufferFull | Malformed

  /** One call: the buffer it leaves, and the packets it returns unless it throws. */
  function Appended(buffer: Bytes, bytes: Bytes): (Bytes, Result<seq<Packet>, ParserError>) {
    if |buffer| + |bytes| > 2 * MAX_CONTROL then (buffer, Err(BufferFull))
    else
      var p := Parse(buffer + bytes);
      (p.rest, if p.refused then Err(Malformed) else Ok(p.packets))
  }

  class StreamParser {
    var buffer: Bytes

    constructor ()
      ensures buffer == []
    {
      buffer := [];
    }

    method Append(bytes: Bytes) returns (r: Result<seq<Packet>, ParserError>)
      modifies this
      ensures (buffer, r) == Appended(old(buffer), bytes)
    {
      if |buffer| + |bytes| > 2 * MAX_CONTROL {
        return Err(BufferFull);
      }
      buffer := buffer + bytes;
      ghost var all := buffer;
      var result: seq<Packet> := [];
      hide Parse, Decode, FromLe;
      assert [] + Parse(all).packets == Parse(all).packets;
      while |buffer| >= HEADER
        invariant Parse(all) == Parsed(result + Parse(buffer).packets, Parse(buffer).rest, Parse(buffer).refused)
        decreases |buffer|
      {
        ParseTurn(buffer, result);
        var start := buffer[..HEADER];
        assert start[..4] == buffer[..4] && start[8..12] == buffer[8..12];
        if start[..4] != MAGIC {
          return Err(Malformed);
        }
        var length := FromLe(start[8..12]) + HEADER;
        if length > MAX_CONTROL {
          return Err(Malformed);
        }
        if |buffer| < length {
          break;
        }
        var p := DecodePacket(buffer[..length], MAX_CONTROL);
        if p.Err? {
          return Err(Malformed);
        }
        result := result + [p.value];
        buffer := buffer[length..];
      }
      ParseTurn(buffer, result);
      return Ok(result);
    }
  }

  /** One turn of the parser's loop. */
  lemma ParseTurn(d: Bytes, result: seq<Packet>)
    ensures match FirstPacket(d)
            case Partly => result + Parse(d).packets == result && Parse(d).rest == d && !Parse(d).refused
            case Refused => result + Parse(d).packets == result && Parse(d).rest == d && Parse(d).refused
            case Whole(p, rest) =>
              && result + Parse(d).packets == (result + [p]) + Parse(rest).packets
              && Parse(d).rest == Parse(rest).rest && Parse(d).refused == Parse(rest).refused
  {
    hide FirstPacket;
    match FirstPacket(d) {
      case Partly => assert result + [] == result;
      case Refused => assert result + [] == result;
      case Whole(p, rest) =>
        assert result + ([p] + Parse(rest).packets) == (result + [p]) + Parse(rest).packets;
    }
  }

  // A stream in pieces

  function Concat(chunks: seq<Bytes>): Bytes {
    if chunks == [] then [] else Concat(chunks[..|chunks| - 1]) + chunks[|chunks| - 1]
  }

  /** A stream handed over piece by piece, up to the first call that throws. */
  datatype Fold = Fold(buffer: Bytes, packets: seq<Packet>, thrown: Option<ParserError>)

  function Folded(chunks: seq<Bytes>): Fold {
    if chunks == [] then Fold([], [], None)
    else
      var f := Folded(chunks[..|chunks| - 1]);
      if f.thrown.Some? then f
      else
        var (buffer, r) := Appended(f.buffer, chunks[|chunks| - 1]);
        if r.Err? then Fold(buffer, f.packets, Some(r.error)) else Fold(buffer, f.packets + r.value, None)
  }

  /**
   Segmentation independence. Pieces of at most 16384 bytes, however cut: the calls throw exactly
   when the whole stream is refused, and never because the buffer is full; if none throws, they
   return exactly the stream's packets and keep what is left behind them, less than 65536 bytes.
   */
  lemma {:induction false} Segmentation(chunks: seq<Bytes>)
    requires forall i | 0 <= i < |chunks| :: |chunks[i]| <= 16384
    ensures var f, p := Folded(chunks), Parse(Concat(chunks));
            && f.thrown == (if p.refused then Some(Malformed) else None)
            && (!p.refused ==> f.packets == p.packets && f.buffer == p.rest && |f.buffer| < MAX_CONTROL)
            && f.packets <= p.packets
  {
    hide Parse;
    if chunks == [] {
      NothingParsed();
    } else {
      var k := |chunks| - 1;
      Segmentation(chunks[..k]);
      ParseContinues(Concat(chunks[..k]), chunks[k]);
      LeftSmall(Concat(chunks[..k]));
      LeftSmall(Concat(chunks));
    }
  }

  lemma NothingParsed()
    ensures Parse([]) == Parsed([], [], false)
  {
  }

  /** Two ways of cutting the same stream give the same packets, unless both throw. */
  lemma SameHoweverCut(a: seq<Bytes>, b: seq<Bytes>)
    requires Concat(a) == Concat(b)
    requires forall i | 0 <= i < |a| :: |a[i]| <= 16384
    requires forall i | 0 <= i < |b| :: |b[i]| <= 16384
    ensures Folded(a).thrown == Folded(b).thrown
    ensures Folded(a).thrown.None? ==> Folded(a) == Folded(b)
  {
    hide Folded, Parse;
    Segmentation(a);
    Segmentation(b);
  }

  // The host's exact reads

  datatype ReadError = EndOfStream | BadStream

  class Stream {
    const data: Bytes
    var pos: nat

    ghost predicate Valid()
      reads this
    {
      pos <= |data|
    }

    ghost function Rest(): Bytes
      reads this
      requires Valid()
    {
      data[pos..]
    }

    constructor (d: Bytes)
      ensures Valid() && Rest() == d
    {
      data, pos := d, 0;
    }

    method ReadExact(n: nat) returns (r: Option<Bytes>)
      requires Valid()
      modifies this
      ensures Valid()
      ensures n > |old(Rest())| ==> r.None?
      ensures n <= |old(Rest())| ==> r == Some(old(Rest())[..n]) && Rest() == old(Rest())[n..]
    {
      if n > |data| - pos {
        pos := |data|;
        return None;
      }
      r := Some(data[pos..pos + n]);
      assert data[pos..][..n] == data[pos..pos + n] && data[pos..][n..] == data[pos + n..];
      pos := pos + n;
    }

    /** Reads one packet: the header first, then as many bytes as it announces. */
    method ReadPacket() returns (r: Result<Packet, ReadError>)
      requires Valid()
      modifies this
      ensures Valid()
      ensures match FirstPacket(old(Rest()))
              case Partly => r == Err(EndOfStream)
              case Refused => r == Err(BadStream)
              case Whole(p, rest) => r == Ok(p) && Rest() == rest
    {
      ghost var d := Rest();
      hide Decode, FromLe;
      var header := ReadExact(HEADER);
      if header.None? {
        return Err(EndOfStream);
      }
      var h := header.value;
      assert h[..4] == d[..4] && h[8..12] == d[8..12];
      if h[..4] != MAGIC {
        return Err(BadStream);
      }
      var length := FromLe(h[8..12]);
      if length > MAX_CONTROL - HEADER {
        return Err(BadStream);
      }
      var body := ReadExact(length);
      if body.None? {
        return Err(EndOfStream);
      }
      assert h + body.value == d[..HEADER + length];
      assert d[HEADER..][length..] == d[HEADER + length..];
      var p := DecodePacket(h + body.value, MAX_CONTROL);
      if p.Err? {
        return Err(BadStream);
      }
      return Ok(p.value);
    }

    /** Reads until a read fails; these are the packets the client's parser finds in the same bytes. */
    method ReadAll() returns (packets: seq<Packet>, error: ReadError)
      requires Valid()
      modifies this
      ensures packets == Parse(old(Rest())).packets
      ensures error == if Parse(old(Rest())).refused then BadStream else EndOfStream
    {
      ghost var d := Rest();
      packets := [];
      hide Parse, FirstPacket;
      assert [] + Parse(d).packets == Parse(d).packets;
      while true
        invariant Valid()
        invariant Parse(d) == Parsed(packets + Parse(Rest()).packets, Parse(Rest()).rest, Parse(Rest()).refused)
        decreases |Rest()|
      {
        ParseTurn(Rest(), packets);
        Shorter(Rest());
        var r := ReadPacket();
        if r.Err? {
          return packets, r.error;
        }
        packets := packets + [r.value];
      }
    }
  }

  // Sequence numbers

  class ReplayGuard {
    var last: u64

    constructor ()
      ensures last == 0
    {
      last := 0;
    }

    method Accept(n: u64) returns (ok: bool)
      modifies this
      ensures ok == (n > old(last)) && last == if ok then n else old(last)
    {
      ok := n > last;
      if ok {
        last := n;
      }
    }
  }

  /** The guard after a stream of sequence numbers. */
  function Guarded(ns: seq<u64>): u64 {
    if ns == [] then 0
    else
      var last := Guarded(ns[..|ns| - 1]);
      if ns[|ns| - 1] > last then ns[|ns| - 1] else last
  }

  /** A number is accepted exactly when it exceeds every number before it, accepted or not, and 0. */
  lemma {:induction false} AcceptedIffNew(ns: seq<u64>, n: u64)
    ensures n > Guarded(ns) <==> n > 0 && forall i | 0 <= i < |ns| :: n > ns[i]
  {
    if ns != [] {
      var k := |ns| - 1;
      AcceptedIffNew(ns[..k], n);
      assert forall i | 0 <= i < k :: ns[..k][i] == ns[i];
    }
  }
}
