/**
 The display description the driver builds for its virtual monitor, and its reading of such a
 description. Pixel clocks are truncated to 10 kHz when written; refresh rates are rounded when read.
 */
module Edid {
  import opened Base

  const SIZE: nat := 128
  const DETAILS: nat := 54
  const DETAIL: nat := 18
  const MAX_MODES: nat := 4
  const H_BLANK: int := 160
  const V_BLANK: int := 30

  datatype Mode = Mode(width: u32, height: u32, fps: u32)

  datatype EdidError = Invalid

  // Which modes the driver takes

  predicate ModeOk(m: Mode) {
    && 320 <= m.width <= 4094 && 320 <= m.height <= 4094
    && m.width % 2 == 0 && m.height % 2 == 0 && 30 <= m.fps <= 60
    && (m.width + H_BLANK) * (m.height + V_BLANK) * m.fps <= 655_350_000
  }

  predicate Accepted(modes: seq<Mode>) {
    1 <= |modes| <= MAX_MODES && forall i | 0 <= i < |modes| :: ModeOk(modes[i])
  }

  // Building

  /** The pixel clock in units of 10 kHz, in 32-bit arithmetic. */
  function Clock(m: Mode): u32 {
    Wrap(Wrap(Wrap(m.width + H_BLANK) * Wrap(m.height + V_BLANK)) * m.fps) / 10000
  }

  /** Byte `j` of a detailed timing. */
  function Detail(m: Mode, j: nat): u8 {
    match j
    case 0 => Clock(m) % 256
    case 1 => Clock(m) / 256 % 256
    case 2 => m.width % 256
    case 3 => H_BLANK
    case 4 => m.width / 256 * 16 % 256
    case 5 => m.height % 256
    case 6 => V_BLANK
    case 7 => m.height / 256 * 16 % 256
    case 8 => 48
    case 9 => 32
    case 10 => 0x35
    case 17 => 0x1e
    case _ => 0
  }

  const HEADER: seq<u8> := [0x00, 0xff, 0xff, 0xff, 0xff, 0xff, 0xff, 0x00, 0x4c, 0x83, 0x01, 0x00]
  const BASICS: seq<u8> := [1, 36, 1, 4, 0x80, 28, 21, 120, 0x06]

  /** Byte `k` of the description, before the checksum. */
  function ByteAt(identity: seq<u8>, modes: seq<Mode>, k: nat): u8
    requires |identity| >= 4
  {
    if k < 12 then HEADER[k]
    else if k < 16 then identity[k - 12]
    else if k < 25 then BASICS[k - 16]
    else if k < 38 then 0
    else if k < DETAILS then 1
    else if (k - DETAILS) / DETAIL < |modes| then Detail(modes[(k - DETAILS) / DETAIL], (k - DETAILS) % DETAIL)
    else 0
  }

  function SumOf(s: seq<u8>): nat {
    if s == [] then 0 else SumOf(s[..|s| - 1]) + s[|s| - 1]
  }

  function Negated(sum: int): u8 {
    (0 - sum) % 256
  }

  /** The first `n` bytes. */
  function Front(identity: seq<u8>, modes: seq<Mode>, n: nat): (r: seq<u8>)
    requires |identity| >= 4
    ensures |r| == n && forall k | 0 <= k < n :: r[k] == ByteAt(identity, modes, k)
  {
    if n == 0 then [] else Front(identity, modes, n - 1) + [ByteAt(identity, modes, n - 1)]
  }

  function Described(identity: seq<u8>, modes: seq<Mode>): (r: seq<u8>)
    requires |identity| >= 4
    ensures |r| == SIZE
  {
    var front := Front(identity, modes, SIZE - 1);
    front + [Negated(SumOf(front))]
  }

  class Monitor {
    const edid: array<u8>
    var modes: seq<Mode>

    constructor ()
      ensures edid.Length == SIZE && fresh(edid) && modes == []
    {
      edid := new u8[SIZE];
      modes := [];
    }

    /** Writes the description of the current modes into the buffer. */
    method MakeEdid(identity: seq<u8>)
      requires edid.Length == SIZE && |identity| >= 4 && |modes| <= MAX_MODES
      modifies edid
      ensures edid[..] == Described(identity, modes)
    {
      forall k | 0 <= k < SIZE {
        edid[k] := if k < 12 then HEADER[k] else 0;
      }
      for k := 12 to 16
        invariant forall j | 0 <= j < SIZE ::
            edid[j] == if j < 12 then HEADER[j] else if j < k then identity[j - 12] else 0
      {
        edid[k] := identity[k - 12];
      }
      for k := 16 to 25
        invariant forall j | 0 <= j < k :: edid[j] == ByteAt(identity, modes, j)
        invariant forall j | k <= j < SIZE :: edid[j] == 0
      {
        edid[k] := BASICS[k - 16];
      }
      for k := 38 to DETAILS
        invariant forall j | 0 <= j < k :: edid[j] == ByteAt(identity, modes, j)
        invariant forall j | k <= j < SIZE :: edid[j] == 0
      {
        edid[k] := 1;
      }
      for i := 0 to |modes|
        invariant forall j | 0 <= j < DETAILS + DETAIL * i :: edid[j] == ByteAt(identity, modes, j)
        invariant forall j | DETAILS + DETAIL * i <= j < SIZE :: edid[j] == 0
      {
        WriteDetail(modes[i], DETAILS + DETAIL * i);
        DetailBytes(identity, modes, i);
      }
      assert forall j | 0 <= j < SIZE - 1 :: edid[j] == ByteAt(identity, modes, j);
      Finish(identity);
    }

    method WriteDetail(m: Mode, at: nat)
      requires edid.Length == SIZE && at + DETAIL < SIZE
      requires forall j | at <= j < SIZE :: edid[j] == 0
      modifies edid
      ensures forall j | 0 <= j < at :: edid[j] == old(edid[j])
      ensures forall j | at <= j < at + DETAIL :: edid[j] == Detail(m, j - at)
      ensures forall j | at + DETAIL <= j < SIZE :: edid[j] == 0
    {
      hide Detail;
      for j := 0 to DETAIL
        invariant forall k | 0 <= k < at :: edid[k] == old(edid[k])
        invariant forall k | at <= k < at + j :: edid[k] == Detail(m, k - at)
        invariant forall k | at + j <= k < SIZE :: edid[k] == 0
      {
        edid[at + j] := Detail(m, j);
      }
    }

    /** The checksum: all bytes add up to 0, modulo 256. */
    method Finish(identity: seq<u8>)
      requires edid.Length == SIZE && |identity| >= 4
      requires forall j | 0 <= j < SIZE - 1 :: edid[j] == ByteAt(identity, modes, j)
      modifies edid
      ensures edid[..] == Described(identity, modes)
    {
      var sum := SumFront();
      ghost var front := edid[..SIZE - 1];
      assert front == Front(identity, modes, SIZE - 1);
      hide SumOf, ByteAt, Front;
      NegateModulo(SumOf(front));
      edid[SIZE - 1] := Negated(sum);
      assert edid[..] == front + [edid[SIZE - 1]];
    }

    method SumFront() returns (sum: u8)
      requires edid.Length == SIZE
      ensures sum == SumOf(edid[..SIZE - 1]) % 256
    {
      sum := 0;
      assert SumOf(edid[..0]) == 0;
      hide SumOf;
      for i := 0 to SIZE - 1
        invariant sum == SumOf(edid[..i]) % 256
      {
        SumStep(edid[..], i);
        assert edid[..][..i] == edid[..i] && edid[..][..i + 1] == edid[..i + 1];
        AddModulo(SumOf(edid[..i]), edid[i]);
        sum := (sum + edid[i]) % 256;
      }
    }
  }

  lemma SumStep(s: seq<u8>, i: nat)
    requires i < |s|
    ensures SumOf(s[..i + 1]) == SumOf(s[..i]) + s[i]
  {
    assert s[..i + 1][..i] == s[..i];
  }

  lemma AddModulo(a: nat, b: nat)
    ensures (a % 256 + b) % 256 == (a + b) % 256
  {
  }

  lemma NegateModulo(a: nat)
    ensures Negated(a % 256) == Negated(a)
  {
  }

  lemma DetailBytes(identity: seq<u8>, modes: seq<Mode>, i: nat)
    requires |identity| >= 4 && i < |modes| <= MAX_MODES
    ensures var at := DETAILS + DETAIL * i;
            forall k | at <= k < at + DETAIL :: ByteAt(identity, modes, k) == Detail(modes[i], k - at)
  {
    hide Detail;
    var at := DETAILS + DETAIL * i;
    forall k | at <= k < at + DETAIL
      ensures ByteAt(identity, modes, k) == Detail(modes[i], k - at)
    {
      assert k - DETAILS == DETAIL * i + (k - at);
      assert (k - DETAILS) / DETAIL == i && (k - DETAILS) % DETAIL == k - at;
    }
  }

  // Reading

  /** The refresh rate nearest to what clock and frame size give. */
  function Rate(clock: nat, total: nat): u32
    requires total > 0
  {
    Wrap((clock as real * 10000.0 / total as real + 0.5).Floor)
  }

  function Joined(low: nat, high: nat): nat {
    low + 256 * high
  }

  /** The mode in the detailed timing at `at`, if there is one. */
  function ModeAt(d: seq<u8>, at: nat): Result<Option<Mode>, EdidError>
    requires at + 8 <= |d|
  {
    var clock: nat := Joined(d[at], d[at + 1]);
    if clock == 0 then Ok(None)
    else
      var w: nat, h: nat := Joined(d[at + 2], d[at + 4] / 16), Joined(d[at + 5], d[at + 7] / 16);
      var hb: nat, vb: nat := Joined(d[at + 3], d[at + 4] % 16), Joined(d[at + 6], d[at + 7] % 16);
      if w == 0 || h == 0 || hb == 0 || vb == 0 then Err(Invalid)
      else Ok(Some(Mode(w, h, Rate(clock, Area(w + hb, h + vb)))))
  }

  function Area(w: nat, h: nat): (r: nat)
    requires w > 0 && h > 0
    ensures r > 0
  {
    w * h
  }

  /** The modes of the first `n` timings. */
  function ModesIn(d: seq<u8>, n: nat): Result<seq<Mode>, EdidError>
    requires |d| == SIZE && n <= MAX_MODES
  {
    if n == 0 then Ok([])
    else
      var before :- ModesIn(d, n - 1);
      var m :- ModeAt(d, DETAILS + DETAIL * (n - 1));
      Ok(if m.Some? then before + [m.value] else before)
  }

  function ParseSpec(d: seq<u8>): Result<seq<Mode>, EdidError> {
    if |d| != SIZE then Err(Invalid)
    else
      var modes :- ModesIn(d, MAX_MODES);
      if modes == [] then Err(Invalid) else Ok(modes)
  }

  method Parse(d: seq<u8>) returns (r: Result<seq<Mode>, EdidError>)
    ensures r == ParseSpec(d)
  {
    if |d| != SIZE {
      return Err(Invalid);
    }
    var modes: seq<Mode> := [];
    for i := 0 to MAX_MODES
      invariant ModesIn(d, i) == Ok(modes)
    {
      var m := ModeAt(d, DETAILS + DETAIL * i);
      if m.Err? {
        assert m.error.Invalid?;
        FailStays(d, i + 1, MAX_MODES);
        return Err(Invalid);
      }
      if m.value.Some? {
        modes := modes + [m.value.value];
      }
    }
    if modes == [] {
      return Err(Invalid);
    }
    return Ok(modes);
  }

  lemma {:induction false} FailStays(d: seq<u8>, n: nat, k: nat)
    requires |d| == SIZE && n <= k <= MAX_MODES && ModesIn(d, n) == Err(Invalid)
    ensures ModesIn(d, k) == Err(Invalid)
    decreases k
  {
    if n < k {
      FailStays(d, n, k - 1);
    }
  }

  // The round trip

  /** The frame's size with its blanking. */
  function Total(m: Mode): nat {
    (m.width + H_BLANK) * (m.height + V_BLANK)
  }

  /** Nothing the driver computes for an accepted mode overflows 32 bits or the 16-bit clock field. */
  lemma NoOverflow(m: Mode)
    requires ModeOk(m)
    ensures 168_000 <= Total(m) && Total(m) * m.fps <= 655_350_000 < U32
    ensures Clock(m) == Total(m) * m.fps / 10000 && 0 < Clock(m) <= 0xffff
  {
    var w, h, total := m.width + H_BLANK, m.height + V_BLANK, Total(m);
    assert total == w * h && total * m.fps <= 655_350_000 && w >= 480 && h >= 350 && m.fps >= 30;
    assert Clock(m) == Wrap(Wrap(Wrap(w) * Wrap(h)) * m.fps) / 10000;
    hide *;
    AtLeast(w, h, 480, 350);
    AtLeast(total, m.fps, 168_000, 30);
    AtLeast(total, m.fps, total, 1);
    WrapSmall(w);
    WrapSmall(h);
    WrapSmall(total);
    WrapSmall(total * m.fps);
  }

  lemma WrapSmall(x: nat)
    requires x < U32
    ensures Wrap(x) == x
  {
  }

  lemma AtLeast(x: nat, y: nat, a: nat, b: nat)
    requires x >= a && y >= b
    ensures x * y >= a * b
  {
    assert x * y - a * b == (x - a) * y + a * (y - b);
  }

  lemma Negative(q: real, t: real)
    requires q < 0.0 && t > 0.0
    ensures q * t < 0.0
  {
  }

  lemma RealAtLeast(q: real, t: real, a: real, b: real)
    requires q >= a >= 0.0 && t >= b > 0.0
    ensures q * t >= a * b
  {
    assert q * t - a * b == (q - a) * t + a * (t - b);
  }

  /** Rounding undoes the truncation of the clock: the error is below 0.06. */
  lemma RateExact(total: nat, fps: u32, clock: nat)
    requires total >= 168_000 && clock == total * fps / 10000
    ensures 0.0 <= fps as real - clock as real * 10000.0 / total as real < 0.06
    ensures Rate(clock, total) == fps
  {
    var t, x := total as real, clock as real * 10000.0 / total as real;
    assert x * t == clock as real * 10000.0;
    var gap := fps as real - x;
    assert gap * t == (total * fps - clock * 10000) as real;
    if gap < 0.0 {
      Negative(gap, t);
    }
    if gap >= 0.06 {
      RealAtLeast(gap, t, 0.06, 168_000.0);
    }
  }

  lemma TwelveBits(x: nat)
    requires x < 4096
    ensures Joined(x % 256, x / 256 * 16 % 256 / 16) == x && x / 256 * 16 % 256 % 16 == 0
  {
  }

  /** What the reader looks at in a detailed timing. */
  ghost predicate HasDetail(d: seq<u8>, at: nat, m: Mode) {
    && at + 8 <= |d|
    && d[at] == Detail(m, 0) && d[at + 1] == Detail(m, 1) && d[at + 2] == Detail(m, 2) && d[at + 3] == Detail(m, 3)
    && d[at + 4] == Detail(m, 4) && d[at + 5] == Detail(m, 5) && d[at + 6] == Detail(m, 6) && d[at + 7] == Detail(m, 7)
  }

  lemma DetailRead(d: seq<u8>, at: nat, m: Mode)
    requires ModeOk(m) && HasDetail(d, at, m)
    ensures ModeAt(d, at) == Ok(Some(m))
  {
    NoOverflow(m);
    RateExact(Total(m), m.fps, Clock(m));
    TwelveBits(m.width);
    TwelveBits(m.height);
    ClockBytes(Clock(m));
    hide Rate, Clock, Joined;
    assert Joined(H_BLANK, 0) == H_BLANK && Joined(V_BLANK, 0) == V_BLANK by {
      NoHigh(H_BLANK);
      NoHigh(V_BLANK);
    }
  }

  lemma ClockBytes(x: nat)
    requires x <= 0xffff
    ensures Joined(x % 256, x / 256 % 256) == x
  {
  }

  lemma NoHigh(x: nat)
    ensures Joined(x, 0) == x
  {
  }

  lemma DetailDescribed(identity: seq<u8>, modes: seq<Mode>, i: nat)
    requires |identity| >= 4 && i < |modes| <= MAX_MODES
    ensures HasDetail(Described(identity, modes), DETAILS + DETAIL * i, modes[i])
  {
    var at, front := DETAILS + DETAIL * i, Front(identity, modes, SIZE - 1);
    DetailBytes(identity, modes, i);
    hide ByteAt, Detail, SumOf;
    assert forall k | at <= k < at + 8 :: Described(identity, modes)[k] == front[k] == ByteAt(identity, modes, k);
  }

  lemma NoDetail(identity: seq<u8>, modes: seq<Mode>, i: nat)
    requires |identity| >= 4 && |modes| <= i < MAX_MODES
    ensures ModeAt(Described(identity, modes), DETAILS + DETAIL * i) == Ok(None)
  {
    var at, front := DETAILS + DETAIL * i, Front(identity, modes, SIZE - 1);
    hide SumOf, Detail, Rate;
    assert Described(identity, modes)[at] == front[at] == ByteAt(identity, modes, at);
    assert Described(identity, modes)[at + 1] == front[at + 1] == ByteAt(identity, modes, at + 1);
  }

  lemma {:induction false} ModesRead(identity: seq<u8>, modes: seq<Mode>, n: nat)
    requires |identity| >= 4 && Accepted(modes) && n <= MAX_MODES
    ensures ModesIn(Described(identity, modes), n) == Ok(modes[..if n < |modes| then n else |modes|])
  {
    hide Described, ModeAt, ModeOk, HasDetail;
    if n > 0 {
      ModesRead(identity, modes, n - 1);
      var d, i := Described(identity, modes), n - 1;
      if i < |modes| {
        DetailDescribed(identity, modes, i);
        DetailRead(d, DETAILS + DETAIL * i, modes[i]);
        assert modes[..n] == modes[..i] + [modes[i]];
      } else {
        NoDetail(identity, modes, i);
      }
    }
  }

  /** Every accepted list of modes is read back from its description exactly, rates and order included. */
  lemma RoundTrip(identity: seq<u8>, modes: seq<Mode>)
    requires |identity| >= 4 && Accepted(modes)
    ensures ParseSpec(Described(identity, modes)) == Ok(modes)
  {
    hide *;
    AcceptedSome(modes);
    ModesRead(identity, modes, MAX_MODES);
    assert modes[..|modes|] == modes;
    ParsedFrom(Described(identity, modes), modes);
  }

  lemma AcceptedSome(modes: seq<Mode>)
    requires Accepted(modes)
    ensures 1 <= |modes| <= MAX_MODES == 4
  {
  }

  lemma ParsedFrom(d: seq<u8>, modes: seq<Mode>)
    requires |d| == SIZE && ModesIn(d, MAX_MODES) == Ok(modes) && modes != []
    ensures ParseSpec(d) == Ok(modes)
  {
    hide ModesIn;
  }

  /** All bytes of a description add up to 0 modulo 256. */
  lemma ChecksumZero(identity: seq<u8>, modes: seq<Mode>)
    requires |identity| >= 4
    ensures SumOf(Described(identity, modes)) % 256 == 0
  {
    var d, front := Described(identity, modes), Front(identity, modes, SIZE - 1);
    assert d[..|d| - 1] == front;
  }

  // What is written and read, byte by byte

  /**
   A description is a block of version 1.4 with the vendor's id and the monitor's own, no other standard timings, and
   nothing behind the modes' timings; each timing has fixed blanking and sync.
   */
  lemma DescriptionLayout(identity: seq<u8>, modes: seq<Mode>)
    requires |identity| >= 4 && |modes| <= 4
    ensures var d := Described(identity, modes);
            && |d| == 128 && d[..8] == [0, 0xff, 0xff, 0xff, 0xff, 0xff, 0xff, 0] && d[8..12] == [0x4c, 0x83, 1, 0]
            && d[12..16] == identity[..4] && d[16..25] == [1, 36, 1, 4, 0x80, 28, 21, 120, 6]
            && (forall k | 25 <= k < 38 :: d[k] == 0) && (forall k | 38 <= k < 54 :: d[k] == 1)
            && (forall k | 54 + 18 * |modes| <= k < 127 :: d[k] == 0)
            && (forall i | 0 <= i < |modes| :: TimingFixed(d[54 + 18 * i..54 + 18 * i + 18]))
  {
    var d := Described(identity, modes);
    DescribedBytes(identity, modes);
    hide Described, Detail;
    forall i | 0 <= i < |modes|
      ensures TimingFixed(d[54 + 18 * i..54 + 18 * i + 18])
    {
      var at := 54 + 18 * i;
      DetailBytes(identity, modes, i);
      DetailFixed(d[at..at + 18], modes[i]);
    }
    hide TimingFixed;
    assert d[12..16] == identity[..4];
    assert d[16..25] == BASICS;
  }

  /** The bytes of a timing that do not depend on the mode. */
  ghost predicate TimingFixed(b: seq<u8>) {
    && |b| == 18 && b[3] == 160 && b[6] == 30 && b[8] == 48 && b[9] == 32 && b[10] == 0x35
    && b[11..17] == [0, 0, 0, 0, 0, 0] && b[17] == 0x1e
  }

  lemma DetailFixed(b: seq<u8>, m: Mode)
    requires |b| == 18 && forall j: nat | j < 18 :: b[j] == Detail(m, j)
    ensures TimingFixed(b)
  {
    hide Clock;
  }

  lemma DescribedBytes(identity: seq<u8>, modes: seq<Mode>)
    requires |identity| >= 4
    ensures forall k: nat | k < 127 :: Described(identity, modes)[k] == ByteAt(identity, modes, k)
  {
    var front := Front(identity, modes, SIZE - 1);
    hide ByteAt, SumOf;
    assert forall k: nat | k < 127 :: Described(identity, modes)[k] == front[k];
  }

  /** The fields of a detailed timing. */
  datatype Timing = Timing(clock: nat, width: nat, hBlank: nat, height: nat, vBlank: nat)

  function Wide(low: nat, high: nat): nat {
    256 * high + low
  }

  function TimingAt(d: seq<u8>, i: nat): Timing
    requires |d| == 128 && i < 4
  {
    var at := 54 + 18 * i;
    Timing(Wide(d[at], d[at + 1]), Wide(d[at + 2], d[at + 4] / 16), Wide(d[at + 3], d[at + 4] % 16),
           Wide(d[at + 5], d[at + 7] / 16), Wide(d[at + 6], d[at + 7] % 16))
  }

  predicate Whole(t: Timing) {
    t.width > 0 && t.hBlank > 0 && t.height > 0 && t.vBlank > 0
  }

  /** How many of the first `n` timings are in use. */
  function Used(d: seq<u8>, n: nat): nat
    requires |d| == 128 && n <= 4
  {
    if n == 0 then 0 else Used(d, n - 1) + if TimingAt(d, n - 1).clock > 0 then 1 else 0
  }

  /** The mode has the timing's size, and the whole rate nearest to its clock by its frame, halves upwards. */
  ghost predicate Shows(m: Mode, t: Timing) {
    var area := (t.width + t.hBlank) * (t.height + t.vBlank);
    && m.width == t.width && m.height == t.height
    && 2 * m.fps * area - area <= 2 * 10000 * t.clock < 2 * m.fps * area + area
  }

  /** The modes are those of the timings in use among the first `n`, in order. */
  ghost predicate Lists(d: seq<u8>, n: nat, modes: seq<Mode>)
    requires |d| == 128 && n <= 4
  {
    && |modes| == Used(d, n)
    && forall i | 0 <= i < n && TimingAt(d, i).clock > 0 ::
         Used(d, i) < |modes| && Shows(modes[Used(d, i)], TimingAt(d, i))
  }

  /**
   A description is read exactly if it has 128 bytes and a timing in use, and no timing in use has a size or blanking
   of nothing; then its modes are those of the timings in use, in order.
   */
  lemma ParseExactly(d: seq<u8>)
    ensures ParseSpec(d).Ok? <==>
            && |d| == 128 && (exists i | 0 <= i < 4 :: TimingAt(d, i).clock > 0)
            && forall i | 0 <= i < 4 :: TimingAt(d, i).clock > 0 ==> Whole(TimingAt(d, i))
    ensures ParseSpec(d).Ok? ==> Lists(d, 4, ParseSpec(d).value)
  {
    if |d| == SIZE {
      ModesListed(d, 4);
      UsedSome(d, 4);
    }
    hide ModesIn, TimingAt, Used;
  }

  lemma {:induction false} UsedSome(d: seq<u8>, n: nat)
    requires |d| == 128 && n <= 4
    ensures Used(d, n) > 0 <==> exists i | 0 <= i < n :: TimingAt(d, i).clock > 0
  {
    hide TimingAt;
    if n > 0 {
      UsedSome(d, n - 1);
    }
  }

  lemma {:induction false} ModesListed(d: seq<u8>, n: nat)
    requires |d| == 128 && n <= 4
    ensures ModesIn(d, n).Ok? <==> forall i | 0 <= i < n :: TimingAt(d, i).clock > 0 ==> Whole(TimingAt(d, i))
    ensures ModesIn(d, n).Ok? ==> Lists(d, n, ModesIn(d, n).value)
  {
    hide TimingAt, Shows, ModeAt;
    if n > 0 {
      ModesListed(d, n - 1);
      ModeShown(d, n - 1);
    }
  }

  lemma ModeShown(d: seq<u8>, i: nat)
    requires |d| == 128 && i < 4
    ensures var r, t := ModeAt(d, 54 + 18 * i), TimingAt(d, i);
            && (r.Err? <==> t.clock > 0 && !Whole(t))
            && (r.Ok? ==> (r.value.Some? <==> t.clock > 0))
            && (r.Ok? && r.value.Some? ==> Shows(r.value.value, t))
  {
    var t := TimingAt(d, i);
    if Whole(t) {
      RateNearest(t.clock, Area(t.width + t.hBlank, t.height + t.vBlank));
    }
    hide Rate;
  }

  lemma RateNearest(clock: nat, area: nat)
    requires clock <= 0xffff && area >= 4
    ensures 2 * Rate(clock, area) * area - area <= 2 * 10000 * clock < 2 * Rate(clock, area) * area + area
  {
    var x := RateIs(clock, area);
    hide Rate;
    FromQuotient(Rate(clock, area), area, clock, x);
  }

  lemma RateIs(clock: nat, area: nat) returns (x: real)
    requires clock <= 0xffff && area >= 4
    ensures x * area as real == clock as real * 10000.0
    ensures Rate(clock, area) as real <= x + 0.5 < Rate(clock, area) as real + 1.0
  {
    x := clock as real * 10000.0 / area as real;
    Quotient(clock as real * 10000.0, area as real, x);
  }

  lemma FromQuotient(f: int, area: nat, clock: nat, x: real)
    requires area > 0 && x * area as real == clock as real * 10000.0 && f as real <= x + 0.5 < f as real + 1.0
    ensures 2 * f * area - area <= 2 * 10000 * clock < 2 * f * area + area
  {
    var n := f * area;
    Scaled(x, area as real, f as real, clock as real * 10000.0, n as real);
    assert 2 * f * area == 2 * n;
  }

  lemma Quotient(c: real, a: real, x: real)
    requires 0.0 <= c <= 655350000.0 && a >= 1.0 && x == c / a
    ensures x * a == c && 0.0 <= x <= c
  {
  }

  lemma Scaled(x: real, a: real, g: real, product: real, scaled: real)
    requires a > 0.0 && g <= x + 0.5 < g + 1.0 && product == x * a && scaled == g * a
    ensures scaled <= product + 0.5 * a < scaled + a
  {
    var low, high := x + 0.5 - g, g + 1.0 - (x + 0.5);
    Positive(low, a);
    Positive(high, a);
    assert low * a == product + 0.5 * a - scaled;
    assert high > 0.0;
    assert high == 1.0 - low;
    assert high * a == a - low * a;
  }

  lemma Positive(x: real, y: real)
    requires y > 0.0
    ensures x >= 0.0 ==> x * y >= 0.0
    ensures x > 0.0 ==> x * y > 0.0
  {
  }
}
