/**
 H.264 byte streams (Annex B of ITU-T H.264): the start-code scanner shared by the
 Rust encoder path and the Swift decoder path, and its inverse.
 */
module AnnexB {
  import opened Base

  const MAX_UNITS: nat := 4096

  datatype AccessUnitError = Invalid | EmptyNal | MissingParameterSets | Oversized

  /** A start code: where its (possibly four-byte) prefix begins and where its payload begins. */
  datatype Start = Start(code: nat, payload: nat)

  /** The three bytes 00 00 01 stand at position `p`. */
  predicate CodeAt(d: Bytes, p: int) {
    0 <= p && p + 3 <= |d| && d[p] == 0 && d[p + 1] == 0 && d[p + 2] == 1
  }

  ghost predicate HasCode(d: Bytes) {
    exists p :: CodeAt(d, p)
  }

  /** The start code at `p`, extended left over one zero byte. */
  function StartAt(d: Bytes, p: nat): Start
    requires CodeAt(d, p)
  {
    Start(if p > 0 && d[p - 1] == 0 then p - 1 else p, p + 3)
  }

  /** The first occurrence of 00 00 01 at or after `p`, or the length when there is none. */
  function NextCode(d: Bytes, p: nat): (q: nat)
    ensures q == |d| || (p <= q && CodeAt(d, q))
    ensures forall k | p <= k < q :: !CodeAt(d, k)
    decreases |d| - p
  {
    if p + 3 > |d| then |d| else if CodeAt(d, p) then p else NextCode(d, p + 1)
  }

  /** Every start code at or after `p`, in order. */
  function StartsFrom(d: Bytes, p: nat): seq<Start>
    decreases |d| - p
  {
    var q := NextCode(d, p);
    if q == |d| then [] else [StartAt(d, q)] + StartsFrom(d, q + 3)
  }

  lemma {:induction false} StartFound(d: Bytes, p: nat, q: nat)
    requires p <= q && CodeAt(d, q)
    ensures StartAt(d, q) in StartsFrom(d, p)
    decreases |d| - p
  {
    var n := NextCode(d, p);
    if n != q {
      StartFound(d, n + 3, q);
    }
  }

  lemma {:induction false} StartReal(d: Bytes, p: nat, s: Start)
    requires s in StartsFrom(d, p)
    ensures p + 3 <= s.payload && CodeAt(d, s.payload - 3) && s == StartAt(d, s.payload - 3)
    decreases |d| - p
  {
    var n := NextCode(d, p);
    if s != StartAt(d, n) {
      StartReal(d, n + 3, s);
    }
  }

  lemma {:induction false} StartsIncrease(d: Bytes, p: nat, i: nat, j: nat)
    requires i < j < |StartsFrom(d, p)|
    ensures StartsFrom(d, p)[i].payload <= StartsFrom(d, p)[j].code
    decreases |d| - p
  {
    var n := NextCode(d, p);
    if i > 0 {
      StartsIncrease(d, n + 3, i - 1, j - 1);
    } else {
      var s := StartsFrom(d, n + 3)[j - 1];
      assert s in StartsFrom(d, n + 3);
      StartReal(d, n + 3, s);
    }
  }

  /** The list holds exactly the occurrences of 00 00 01, each once, in order and without overlap. */
  lemma StartsExact(d: Bytes)
    ensures forall q: nat | CodeAt(d, q) :: StartAt(d, q) in StartsFrom(d, 0)
    ensures forall s | s in StartsFrom(d, 0) ::
              3 <= s.payload && CodeAt(d, s.payload - 3) && s == StartAt(d, s.payload - 3)
    ensures forall i, j | 0 <= i < j < |StartsFrom(d, 0)| :: StartsFrom(d, 0)[i].payload <= StartsFrom(d, 0)[j].code
  {
    forall q: nat | CodeAt(d, q)
      ensures StartAt(d, q) in StartsFrom(d, 0)
    {
      StartFound(d, 0, q);
    }
    forall s | s in StartsFrom(d, 0)
      ensures 3 <= s.payload && CodeAt(d, s.payload - 3) && s == StartAt(d, s.payload - 3)
    {
      StartReal(d, 0, s);
    }
    forall i, j | 0 <= i < j < |StartsFrom(d, 0)|
      ensures StartsFrom(d, 0)[i].payload <= StartsFrom(d, 0)[j].code
    {
      StartsIncrease(d, 0, i, j);
    }
  }

  lemma {:induction false} SkipNoCode(d: Bytes, p: nat, q: nat)
    requires p <= q
    requires forall k | p <= k < q :: !CodeAt(d, k)
    ensures NextCode(d, p) == NextCode(d, q)
    decreases q - p
  {
    if p < q {
      SkipNoCode(d, p + 1, q);
    }
  }

  /** One turn of the scanner's loop, in terms of the start codes still to come. */
  lemma ScanStep(d: Bytes, i: nat)
    requires i + 3 <= |d|
    requires i > 0 && CodeAt(d, i) ==> d[i - 1] != 0
    ensures CodeAt(d, i) ==> StartsFrom(d, i) == [Start(i, i + 3)] + StartsFrom(d, i + 3)
    ensures d[i] == 0 && CodeAt(d, i + 1) ==> StartsFrom(d, i) == [Start(i, i + 4)] + StartsFrom(d, i + 4)
    ensures !CodeAt(d, i) ==> StartsFrom(d, i) == StartsFrom(d, i + 1)
  {
  }

  ghost predicate Splits(all: seq<Start>, found: seq<Start>, rest: seq<Start>) {
    all == found + rest
  }

  lemma MoveOne(all: seq<Start>, found: seq<Start>, s: Start, rest: seq<Start>)
    requires Splits(all, found, [s] + rest)
    ensures Splits(all, found + [s], rest)
  {
    assert found + ([s] + rest) == (found + [s]) + rest;
  }

  /** The scanner's loop finds exactly the start codes of `StartsFrom`. */
  method Scan(d: Bytes) returns (starts: seq<Start>)
    ensures starts == StartsFrom(d, 0)
  {
    starts := [];
    var i := 0;
    ghost var all := StartsFrom(d, 0);
    while i + 3 <= |d|
      invariant 0 <= i <= |d|
      invariant Splits(all, starts, StartsFrom(d, i))
      invariant i > 0 && CodeAt(d, i) ==> d[i - 1] != 0
      decreases |d| - i
    {
      ScanStep(d, i);
      if d[i] == 0 && d[i + 1] == 0 {
        if d[i + 2] == 1 {
          MoveOne(all, starts, Start(i, i + 3), StartsFrom(d, i + 3));
          starts := starts + [Start(i, i + 3)];
          i := i + 3;
          continue;
        }
        if i + 4 <= |d| && d[i + 2] == 0 && d[i + 3] == 1 {
          MoveOne(all, starts, Start(i, i + 4), StartsFrom(d, i + 4));
          starts := starts + [Start(i, i + 4)];
          i := i + 4;
          continue;
        }
      }
      i := i + 1;
    }
    assert StartsFrom(d, i) == [] && starts + [] == starts;
  }

  /** Where a payload that begins at `a` ends: at the next start code, or at the end of the data. */
  function End(d: Bytes, a: nat): nat {
    var q := NextCode(d, a);
    if q == |d| then |d| else StartAt(d, q).code
  }

  /** The units from the payload that begins at `a`, just after a start code. */
  function UnitsFrom(d: Bytes, a: nat): (u: seq<Bytes>)
    requires 1 <= a <= |d| && d[a - 1] == 1
    ensures u != []
    decreases |d| - a
  {
    var q := NextCode(d, a);
    [d[a..End(d, a)]] + if q == |d| then [] else UnitsFrom(d, q + 3)
  }

  /** What the scan delimits, before it is validated. */
  function RawUnits(d: Bytes): seq<Bytes> {
    var q := NextCode(d, 0);
    if q == |d| then [] else UnitsFrom(d, q + 3)
  }

  /** The NAL units of an access unit. */
  function Units(d: Bytes): Result<seq<Bytes>, AccessUnitError> {
    var u := RawUnits(d);
    if u == [] || |u| > MAX_UNITS then Err(Invalid)
    else if [] in u then Err(EmptyNal)
    else Ok(u)
  }

  /** Unit `i` of those from payload `a` lies between start codes `i - 1` and `i` after it. */
  lemma {:induction false} UnitAt(d: Bytes, a: nat, i: nat)
    requires 1 <= a <= |d| && d[a - 1] == 1
    requires i <= |StartsFrom(d, a)|
    ensures var s := StartsFrom(d, a);
            var begin := if i == 0 then a else s[i - 1].payload;
            var end := if i < |s| then s[i].code else |d|;
            && |UnitsFrom(d, a)| == |s| + 1
            && begin <= end <= |d| && UnitsFrom(d, a)[i] == d[begin..end]
    decreases |d| - a
  {
    var q := NextCode(d, a);
    hide NextCode;
    if q != |d| {
      var s := StartsFrom(d, q + 3);
      assert StartsFrom(d, a) == [StartAt(d, q)] + s;
      assert UnitsFrom(d, a) == [d[a..End(d, a)]] + UnitsFrom(d, q + 3);
      if i == 0 {
        UnitAt(d, q + 3, 0);
      } else {
        UnitAt(d, q + 3, i - 1);
        assert StartsFrom(d, a)[i - 1] == if i == 1 then StartAt(d, q) else s[i - 2];
        assert i < |s| + 1 ==> StartsFrom(d, a)[i] == s[i - 1];
      }
    }
  }

  lemma RawUnitAt(d: Bytes, i: nat)
    requires i < |StartsFrom(d, 0)|
    ensures var s := StartsFrom(d, 0);
            var end := if i + 1 < |s| then s[i + 1].code else |d|;
            && |RawUnits(d)| == |s|
            && s[i].payload <= end <= |d| && RawUnits(d)[i] == d[s[i].payload..end]
  {
    UnitAt(d, NextCode(d, 0) + 3, i);
  }

  lemma NoneRaw(d: Bytes)
    ensures StartsFrom(d, 0) == [] ==> RawUnits(d) == []
  {
    hide NextCode, UnitsFrom;
  }

  method ComputeUnits(d: Bytes) returns (r: Result<seq<Bytes>, AccessUnitError>)
    ensures r == Units(d)
  {
    var starts := Scan(d);
    NoneRaw(d);
    hide RawUnits, StartsFrom;
    if starts == [] {
      return Err(Invalid);
    }
    RawUnitAt(d, 0);
    if |starts| > MAX_UNITS {
      return Err(Invalid);
    }
    ghost var raw := RawUnits(d);
    var units: seq<Bytes> := [];
    for i := 0 to |starts|
      invariant units == raw[..i]
      invariant [] !in units
    {
      RawUnitAt(d, i);
      var begin := starts[i].payload;
      var end := if i + 1 < |starts| then starts[i + 1].code else |d|;
      if end <= begin {
        assert raw[i] == [];
        return Err(EmptyNal);
      }
      units := units + [d[begin..end]];
    }
    assert units == raw;
    return Ok(units);
  }

  /** The decoder's scanner first bounds the access unit. */
  function Nals(d: Bytes): Result<seq<Bytes>, AccessUnitError> {
    if |d| > MAX_FRAME then Err(Oversized) else Units(d)
  }

  lemma SliceCode(d: Bytes, a: nat, b: nat, p: nat)
    requires a <= p && p + 3 <= b <= |d|
    ensures CodeAt(d[a..b], p - a) == CodeAt(d, p)
  {
    var u := d[a..b];
    assert u[p - a] == d[p] && u[p - a + 1] == d[p + 1] && u[p - a + 2] == d[p + 2];
  }

  lemma NoCodeInSlice(d: Bytes, a: nat, b: nat)
    requires a <= b <= |d|
    ensures HasCode(d[a..b]) <==> exists p :: a <= p && p + 3 <= b && CodeAt(d, p)
  {
    forall p | a <= p && p + 3 <= b
      ensures CodeAt(d[a..b], p - a) == CodeAt(d, p)
    {
      SliceCode(d, a, b, p);
    }
    if HasCode(d[a..b]) {
      var q :| CodeAt(d[a..b], q);
      assert CodeAt(d, a + q) by {
        SliceCode(d, a, b, a + q);
      }
    }
  }

  /** No unit contains a start code. */
  lemma {:induction false} UnitsClean(d: Bytes, a: nat)
    requires 1 <= a <= |d| && d[a - 1] == 1
    ensures forall u | u in UnitsFrom(d, a) :: !HasCode(u)
    decreases |d| - a
  {
    var q := NextCode(d, a);
    NoCodeInSlice(d, a, End(d, a));
    if q != |d| {
      UnitsClean(d, q + 3);
    }
  }

  // Printing

  /** A NAL unit with the start code that precedes it: 00 00 00 01 when `long`, else 00 00 01. */
  datatype Coded = Coded(long: bool, nal: Bytes)

  function Code(long: bool): Bytes {
    if long then [0, 0, 0, 1] else [0, 0, 1]
  }

  function Join(us: seq<Coded>): Bytes {
    if us == [] then [] else Code(us[0].long) + (us[0].nal + Join(us[1..]))
  }

  function NalsOf(us: seq<Coded>): (r: seq<Bytes>)
    ensures |r| == |us|
  {
    if us == [] then [] else [us[0].nal] + NalsOf(us[1..])
  }

  lemma {:induction false} NalsOfAt(us: seq<Coded>, i: nat)
    requires i < |us|
    ensures NalsOf(us)[i] == us[i].nal
  {
    if i > 0 {
      NalsOfAt(us[1..], i - 1);
    }
  }

  predicate EndsZero(n: Bytes) {
    n != [] && n[|n| - 1] == 0
  }

  /** A unit as the scanner sees it when start code `next` follows: a short one takes a trailing zero. */
  function Trim(n: Bytes, nextLong: bool): Bytes {
    if !nextLong && EndsZero(n) then n[..|n| - 1] else n
  }

  /** The units found in `Join(us)`. */
  function Trimmed(us: seq<Coded>): (r: seq<Bytes>)
    ensures |r| == |us|
  {
    if us == [] then [] else [Trim(us[0].nal, |us| == 1 || us[1].long)] + Trimmed(us[1..])
  }

  /** No unit that ends in a zero precedes a short start code. */
  predicate Kept(us: seq<Coded>) {
    |us| < 2 || ((us[1].long || !EndsZero(us[0].nal)) && Kept(us[1..]))
  }

  lemma {:induction false} KeptMeans(us: seq<Coded>)
    ensures Kept(us) <==> forall i | 0 <= i < |us| - 1 :: us[i + 1].long || !EndsZero(us[i].nal)
  {
    if |us| >= 2 {
      var t := us[1..];
      KeptMeans(t);
      assert forall i | 0 <= i < |t| :: t[i] == us[i + 1];
      assert forall i | 1 <= i < |us| - 1 ::
               (us[i + 1].long || !EndsZero(us[i].nal)) == (t[i].long || !EndsZero(t[i - 1].nal));
    }
  }

  lemma {:induction false} UntrimmedWhen(us: seq<Coded>)
    ensures Trimmed(us) == NalsOf(us) <==> Kept(us)
  {
    if us != [] {
      UntrimmedWhen(us[1..]);
      var x, y := Trim(us[0].nal, |us| == 1 || us[1].long), us[0].nal;
      assert EndsZero(y) ==> |y[..|y| - 1]| < |y|;
      if Trimmed(us) == NalsOf(us) {
        assert ([x] + Trimmed(us[1..]))[0] == ([y] + NalsOf(us[1..]))[0];
        assert ([x] + Trimmed(us[1..]))[1..] == ([y] + NalsOf(us[1..]))[1..];
      }
    }
  }

  /** No unit of the list contains a start code. */
  ghost predicate Clean(us: seq<Coded>) {
    us == [] || (!HasCode(us[0].nal) && Clean(us[1..]))
  }

  lemma {:induction false} CleanMeans(us: seq<Coded>)
    ensures Clean(us) <==> forall i | 0 <= i < |us| :: !HasCode(us[i].nal)
  {
    if us != [] {
      CleanMeans(us[1..]);
      assert forall i | 1 <= i < |us| :: us[i] == us[1..][i - 1];
    }
  }

  /** `x` stands at position `o`. */
  predicate Stands(d: Bytes, o: nat, x: Bytes) {
    o + |x| <= |d| && d[o..o + |x|] == x
  }

  lemma CodeStands(d: Bytes, e: nat, long: bool)
    requires Stands(d, e, Code(long))
    ensures CodeAt(d, if long then e + 1 else e)
    ensures d[e] == 0 && d[e + 1] == 0 && d[e + |Code(long)| - 1] == 1
  {
    var t := d[e..e + |Code(long)|];
    assert d[e] == t[0] && d[e + 1] == t[1] && d[e + 2] == t[2];
    assert long ==> d[e + 3] == t[3];
  }

  /** No start code begins inside a unit without start codes that is followed by two zeros. */
  lemma NoCodeBefore(d: Bytes, a: nat, n: Bytes)
    requires Stands(d, a, n) && !HasCode(n)
    requires a + |n| == |d| || (a + |n| + 2 <= |d| && d[a + |n|] == 0 && d[a + |n| + 1] == 0)
    ensures forall k | a <= k < a + |n| :: !CodeAt(d, k)
  {
    NoCodeInSlice(d, a, a + |n|);
  }

  lemma CodeAfter(d: Bytes, a: nat, n: Bytes, long: bool)
    requires Stands(d, a, n) && !HasCode(n) && Stands(d, a + |n|, Code(long))
    ensures NextCode(d, a) == a + |n| + if long then 1 else 0
  {
    var e := a + |n|;
    CodeStands(d, e, long);
    NoCodeBefore(d, a, n);
    SkipNoCode(d, a, if long then e + 1 else e);
  }

  /** A payload without start codes, then a start code: where the scanner ends it. */
  lemma UnitThenCode(d: Bytes, a: nat, n: Bytes, long: bool)
    requires 1 <= a && Stands(d, a, n) && d[a - 1] == 1 && !HasCode(n)
    requires Stands(d, a + |n|, Code(long))
    ensures var b := a + |n| + |Code(long)|;
            b <= |d| && d[b - 1] == 1 && UnitsFrom(d, a) == [Trim(n, long)] + UnitsFrom(d, b)
  {
    var e := a + |n|;
    hide NextCode, CodeAt, HasCode;
    CodeAfter(d, a, n, long);
    CodeStands(d, e, long);
    if n != [] {
      LastByte(d, a, n);
    }
    assert d[a..End(d, a)] == Trim(n, long);
  }

  lemma LastByte(d: Bytes, a: nat, n: Bytes)
    requires Stands(d, a, n) && n != []
    ensures d[a + |n| - 1] == n[|n| - 1]
    ensures d[a..a + |n| - 1] == n[..|n| - 1]
  {
    var t := d[a..a + |n|];
    assert d[a + |n| - 1] == t[|n| - 1];
    assert d[a..a + |n| - 1] == t[..|n| - 1];
  }

  lemma UnitAtEnd(d: Bytes, a: nat, n: Bytes)
    requires 1 <= a && Stands(d, a, n) && d[a - 1] == 1 && a + |n| == |d| && !HasCode(n)
    ensures UnitsFrom(d, a) == [n]
  {
    NoCodeBefore(d, a, n);
    SkipNoCode(d, a, |d|);
  }

  /** The list is laid out from position `a`, where the payload of its first unit begins. */
  ghost predicate Laid(d: Bytes, a: nat, us: seq<Coded>)
    requires us != []
    decreases |us|
  {
    && Stands(d, a, us[0].nal)
    && var e := a + |us[0].nal|;
       if |us| == 1 then e == |d|
       else
         var c := Code(us[1].long);
         Stands(d, e, c) && Laid(d, e + |c|, us[1..])
  }

  lemma {:induction false} JoinLaid(d: Bytes, a: nat, us: seq<Coded>)
    requires us != [] && a <= |d| && d[a..] == us[0].nal + Join(us[1..])
    ensures Laid(d, a, us)
    decreases |us|
  {
    var n, r := us[0].nal, Join(us[1..]);
    hide Stands, Code;
    if |us| > 1 {
      var e, c, t := a + |n|, Code(us[1].long), us[1..];
      var r' := t[0].nal + Join(t[1..]);
      assert r == c + r';
      hide Join;
      SplitAt(d, a, n, r);
      SplitAt(d, e, c, r');
      JoinLaid(d, e + |c|, t);
    } else {
      SplitAt(d, a, n, r);
    }
  }

  lemma SplitAt(d: Bytes, a: nat, x: Bytes, r: Bytes)
    requires a <= |d| && d[a..] == x + r
    ensures Stands(d, a, x) && a + |x| + |r| == |d| && d[a + |x|..] == r
  {
    var t := d[a..];
    assert |t| == |x| + |r|;
    assert d[a..a + |x|] == t[..|x|];
    assert d[a + |x|..] == t[|x|..];
  }

  /** Scanning a list laid out in the data gives the trimmed units. */
  lemma {:induction false} LaidUnits(d: Bytes, a: nat, us: seq<Coded>)
    requires us != [] && 1 <= a <= |d| && d[a - 1] == 1
    requires Laid(d, a, us) && Clean(us)
    ensures UnitsFrom(d, a) == Trimmed(us)
    decreases |us|
  {
    hide UnitsFrom, NextCode, CodeAt, HasCode, Stands, Code;
    var n := us[0].nal;
    if |us| == 1 {
      UnitAtEnd(d, a, n);
    } else {
      UnitThenCode(d, a, n, us[1].long);
      LaidUnits(d, a + |n| + |Code(us[1].long)|, us[1..]);
    }
  }

  /** The scanner enters a stream that begins with a start code just after that code. */
  lemma FirstCode(d: Bytes, long: bool, rest: Bytes)
    requires d == Code(long) + rest
    ensures d[|Code(long)|..] == rest && d[|Code(long)| - 1] == 1
    ensures RawUnits(d) == UnitsFrom(d, |Code(long)|)
  {
    var q := if long then 1 else 0;
    assert CodeAt(d, q);
    SkipNoCode(d, 0, q);
  }

  /** What a list of units must satisfy to survive printing and scanning. */
  ghost predicate Printable(us: seq<Coded>) {
    && 1 <= |us| <= MAX_UNITS
    && (forall i | 0 <= i < |us| :: us[i].nal != [] && !HasCode(us[i].nal))
    && (forall i | 0 <= i < |us| - 1 :: us[i + 1].long || !EndsZero(us[i].nal))
  }

  lemma PrintedRaw(us: seq<Coded>)
    requires us != []
    requires Clean(us)
    ensures RawUnits(Join(us)) == Trimmed(us)
  {
    var rest := us[0].nal + Join(us[1..]);
    var d, c := Join(us), |Code(us[0].long)|;
    assert d == Code(us[0].long) + rest;
    hide Join, UnitsFrom, RawUnits, Trimmed, CodeAt, NextCode, Clean, HasCode, Laid;
    FirstCode(d, us[0].long, rest);
    JoinLaid(d, c, us);
    LaidUnits(d, c, us);
  }

  /** Scanned units are nonempty and contain no start code. */
  lemma UnitsOk(d: Bytes)
    requires Units(d).Ok?
    ensures 1 <= |Units(d).value| <= MAX_UNITS
    ensures forall u | u in Units(d).value :: u != [] && !HasCode(u)
  {
    UnitsClean(d, NextCode(d, 0) + 3);
  }

  lemma PrintableScans(us: seq<Coded>)
    requires Printable(us)
    ensures Units(Join(us)) == Ok(NalsOf(us))
  {
    UntrimmedWhen(us);
    KeptMeans(us);
    CleanMeans(us);
    PrintedRaw(us);
    forall i | 0 <= i < |us|
      ensures NalsOf(us)[i] != []
    {
      NalsOfAt(us, i);
    }
  }

  lemma ScannedPrintable(us: seq<Coded>)
    requires Units(Join(us)) == Ok(NalsOf(us))
    ensures Printable(us)
  {
    var n := NalsOf(us);
    UnitsOk(Join(us));
    forall i | 0 <= i < |us|
      ensures us[i].nal != [] && !HasCode(us[i].nal)
    {
      NalsOfAt(us, i);
      assert n[i] in n;
    }
    UntrimmedWhen(us);
    KeptMeans(us);
    CleanMeans(us);
    PrintedRaw(us);
  }

  /** Scanning undoes printing exactly on the printable lists. */
  lemma RoundTrip(us: seq<Coded>)
    ensures Units(Join(us)) == Ok(NalsOf(us)) <==> Printable(us)
  {
    if Printable(us) {
      PrintableScans(us);
    } else if Units(Join(us)) == Ok(NalsOf(us)) {
      ScannedPrintable(us);
    }
  }
}
