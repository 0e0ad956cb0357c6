/** The encoder's repetition of parameter sets: every IDR access unit carries an SPS and a PPS. */
module ParameterSets {
  import opened Base
  import opened AnnexB

  const SPS: int := 7
  const PPS: int := 8
  const IDR: int := 5

  function Kind(n: Bytes): int
    requires n != []
  {
    n[0] % 32
  }

  predicate HasKind(nals: seq<Bytes>, kind: int) {
    exists n | n in nals :: n != [] && Kind(n) == kind
  }

  /** The last unit of the given kind, or `prior` when there is none. */
  function Last(prior: Bytes, nals: seq<Bytes>, kind: int): Bytes {
    if nals == [] then prior
    else
      var n := nals[|nals| - 1];
      if n != [] && Kind(n) == kind then n else Last(prior, nals[..|nals| - 1], kind)
  }

  /** The stored sets. */
  datatype Stored = Stored(sps: Bytes, pps: Bytes)

  function Absorb(s: Stored, nals: seq<Bytes>): Stored {
    Stored(Last(s.sps, nals, SPS), Last(s.pps, nals, PPS))
  }

  /** The sets that an IDR access unit with these units lacks. */
  function Missing(s: Stored, nals: seq<Bytes>): seq<Coded> {
    if !HasKind(nals, IDR) then []
    else
      (if HasKind(nals, SPS) then [] else [Coded(true, s.sps)])
      + (if HasKind(nals, PPS) then [] else [Coded(true, s.pps)])
  }

  datatype Prepared = Prepared(data: Bytes, keyframe: bool)

  function PrepareSpec(s: Stored, d: Bytes): (Stored, Result<Prepared, AccessUnitError>) {
    match Units(d)
    case Err(e) => (s, Err(e))
    case Ok(nals) =>
      var t, idr := Absorb(s, nals), HasKind(nals, IDR);
      var out := Join(Missing(t, nals)) + d;
      if idr && (t.sps == [] || t.pps == []) then (t, Err(MissingParameterSets))
      else if |out| > MAX_FRAME then (t, Err(Oversized))
      else (t, Ok(Prepared(out, idr)))
  }

  /** Which of SPS, PPS and IDR occur. */
  function Kinds(nals: seq<Bytes>): (bool, bool, bool) {
    (HasKind(nals, SPS), HasKind(nals, PPS), HasKind(nals, IDR))
  }

  class ParameterSetStore {
    var sps: Bytes
    var pps: Bytes

    constructor ()
      ensures State() == Stored([], [])
    {
      sps, pps := [], [];
    }

    function State(): Stored
      reads this
    {
      Stored(sps, pps)
    }

    /** Stores the sets found and tells which kinds there were. */
    method Remember(nals: seq<Bytes>) returns (hasSps: bool, hasPps: bool, idr: bool)
      requires [] !in nals
      modifies this
      ensures State() == Absorb(old(State()), nals)
      ensures (hasSps, hasPps, idr) == Kinds(nals)
    {
      hasSps, hasPps, idr := false, false, false;
      for i := 0 to |nals|
        invariant (hasSps, hasPps, idr) == Kinds(nals[..i])
        invariant State() == Absorb(old(State()), nals[..i])
      {
        var n := nals[i];
        assert n in nals;
        NextUnit(old(State()), nals, i);
        match Kind(n)
        case 7 => sps, hasSps := n, true;
        case 8 => pps, hasPps := n, true;
        case 5 => idr := true;
        case _ =>
      }
      assert nals[..|nals|] == nals;
    }

    /** The sets to be put in front, each behind a start code. */
    method Repeated(hasSps: bool, hasPps: bool) returns (out: Bytes)
      ensures out == (if hasSps then [] else [0, 0, 0, 1] + sps) + (if hasPps then [] else [0, 0, 0, 1] + pps)
    {
      out := [];
      if !hasSps {
        out := out + ([0, 0, 0, 1] + sps);
      }
      if !hasPps {
        out := out + ([0, 0, 0, 1] + pps);
      }
    }

    method Prepare(d: Bytes) returns (r: Result<Prepared, AccessUnitError>)
      modifies this
      ensures (State(), r) == PrepareSpec(old(State()), d)
    {
      var units := ComputeUnits(d);
      if units.Err? {
        return Err(units.error);
      }
      var nals := units.value;
      hide Units, Join, HasKind, Last;
      var hasSps, hasPps, idr := Remember(nals);
      JoinMissing(State(), nals);
      var out: Bytes := [];
      if idr {
        if sps == [] || pps == [] {
          return Err(MissingParameterSets);
        }
        out := Repeated(hasSps, hasPps);
      }
      assert out == Join(Missing(State(), nals));
      out := out + d;
      if |out| > MAX_FRAME {
        return Err(Oversized);
      }
      return Ok(Prepared(out, idr));
    }
  }

  lemma AnotherUnit(nals: seq<Bytes>, i: nat, kind: int, prior: Bytes)
    requires i < |nals| && nals[i] != []
    ensures HasKind(nals[..i + 1], kind) == (HasKind(nals[..i], kind) || Kind(nals[i]) == kind)
    ensures Last(prior, nals[..i + 1], kind) == if Kind(nals[i]) == kind then nals[i] else Last(prior, nals[..i], kind)
  {
    assert nals[..i + 1] == nals[..i] + [nals[i]];
    assert nals[..i + 1][..i] == nals[..i];
  }

  lemma NextUnit(s: Stored, nals: seq<Bytes>, i: nat)
    requires i < |nals| && nals[i] != []
    ensures var (a, b, c) := Kinds(nals[..i]);
            Kinds(nals[..i + 1]) == (a || Kind(nals[i]) == SPS, b || Kind(nals[i]) == PPS, c || Kind(nals[i]) == IDR)
    ensures Absorb(s, nals[..i + 1]) ==
            var t := Absorb(s, nals[..i]);
            Stored(if Kind(nals[i]) == SPS then nals[i] else t.sps, if Kind(nals[i]) == PPS then nals[i] else t.pps)
  {
    AnotherUnit(nals, i, SPS, s.sps);
    AnotherUnit(nals, i, PPS, s.pps);
    AnotherUnit(nals, i, IDR, []);
  }

  lemma JoinMissing(s: Stored, nals: seq<Bytes>)
    ensures Join(Missing(s, nals))
         == if !HasKind(nals, IDR) then []
            else (if HasKind(nals, SPS) then [] else [0, 0, 0, 1] + s.sps)
                 + (if HasKind(nals, PPS) then [] else [0, 0, 0, 1] + s.pps)
  {
    var a, b := Coded(true, s.sps), Coded(true, s.pps);
    assert Join([]) == [];
    assert Join([a]) == [0, 0, 0, 1] + s.sps && Join([b]) == [0, 0, 0, 1] + s.pps;
    assert [a, b][1..] == [b];
    assert Join([a, b]) == [0, 0, 0, 1] + (s.sps + Join([b]));
    assert [] + [b] == [b] && [a] + [] == [a] && [a] + [b] == [a, b];
  }

  // What the stored sets always satisfy

  ghost predicate SetOk(n: Bytes, kind: int) {
    n != [] ==> Kind(n) == kind && !HasCode(n)
  }

  ghost predicate StoredOk(s: Stored) {
    SetOk(s.sps, SPS) && SetOk(s.pps, PPS)
  }

  lemma {:induction false} LastOk(prior: Bytes, nals: seq<Bytes>, kind: int)
    requires SetOk(prior, kind)
    requires forall n | n in nals :: n != [] && !HasCode(n)
    ensures SetOk(Last(prior, nals, kind), kind)
    ensures HasKind(nals, kind) ==> Last(prior, nals, kind) in nals
    ensures !HasKind(nals, kind) ==> Last(prior, nals, kind) == prior
  {
    if nals != [] {
      var k := |nals| - 1;
      assert nals[k] in nals && forall n | n in nals[..k] :: n in nals;
      LastOk(prior, nals[..k], kind);
      AnotherUnit(nals, k, kind, prior);
      assert nals[..k + 1] == nals;
    }
  }

  /** Every call keeps the stored sets well formed, whatever its outcome. */
  lemma PrepareKeepsStored(s: Stored, d: Bytes)
    requires StoredOk(s)
    ensures StoredOk(PrepareSpec(s, d).0)
  {
    if Units(d).Ok? {
      UnitsOk(d);
      LastOk(s.sps, Units(d).value, SPS);
      LastOk(s.pps, Units(d).value, PPS);
    }
  }

  // Scanning what was prepared

  lemma {:induction false} SameNext(x: Bytes, a: nat, y: Bytes, b: nat)
    requires a <= |x| && b <= |y| && x[a..] == y[b..]
    ensures NextCode(x, a) - a == NextCode(y, b) - b
    decreases |x| - a
  {
    if a < |x| {
      assert x[a] == x[a..][0] == y[b];
      assert x[a + 1..] == x[a..][1..] && y[b + 1..] == y[b..][1..];
      SameNext(x, a + 1, y, b + 1);
      if a + 3 <= |x| {
        assert x[a + 1] == x[a..][1] == y[b + 1] && x[a + 2] == x[a..][2] == y[b + 2];
      }
    }
  }

  lemma SameEnd(x: Bytes, a: nat, y: Bytes, b: nat)
    requires 1 <= a <= |x| && 1 <= b <= |y| && x[a - 1] == y[b - 1] == 1
    requires x[a..] == y[b..]
    ensures NextCode(x, a) - a == NextCode(y, b) - b
    ensures x[a..End(x, a)] == y[b..End(y, b)]
  {
    SameNext(x, a, y, b);
    SameLength(x, a, y, b);
    var n := End(x, a) - a;
    hide *;
    assert x[a..a + n] == x[a..][..n] && y[b..b + n] == y[b..][..n];
  }

  lemma SameLength(x: Bytes, a: nat, y: Bytes, b: nat)
    requires 1 <= a <= |x| && 1 <= b <= |y| && x[a - 1] == y[b - 1] == 1
    requires x[a..] == y[b..] && NextCode(x, a) - a == NextCode(y, b) - b
    ensures a <= End(x, a) <= |x| && b <= End(y, b) <= |y| && End(x, a) - a == End(y, b) - b
  {
    hide NextCode;
    var q, r := NextCode(x, a), NextCode(y, b);
    assert q > a ==> x[q - 1] == x[a..][q - 1 - a] == y[r - 1];
  }

  lemma {:induction false} SameUnits(x: Bytes, a: nat, y: Bytes, b: nat)
    requires 1 <= a <= |x| && 1 <= b <= |y| && x[a - 1] == y[b - 1] == 1
    requires x[a..] == y[b..]
    ensures UnitsFrom(x, a) == UnitsFrom(y, b)
    decreases |x| - a
  {
    SameEnd(x, a, y, b);
    var q, r := NextCode(x, a), NextCode(y, b);
    var u := x[a..End(x, a)];
    if q == |x| {
      assert r == |y|;
      assert UnitsFrom(x, a) == [u] == UnitsFrom(y, b);
    } else {
      SameRest(x, a, y, b, q + 3 - a);
      SameUnits(x, q + 3, y, r + 3);
      assert UnitsFrom(x, a) == [u] + UnitsFrom(x, q + 3);
      assert UnitsFrom(y, b) == [u] + UnitsFrom(y, r + 3);
    }
  }

  lemma SameRest(x: Bytes, a: nat, y: Bytes, b: nat, n: nat)
    requires a + n <= |x| && b <= |y| && x[a..] == y[b..]
    ensures b + n <= |y| && x[a + n..] == y[b + n..]
  {
    assert |x[a..]| == |y[b..]|;
    assert x[a + n..] == x[a..][n..] && y[b + n..] == y[b..][n..];
  }

  /** `d` begins with a start code that leaves the set `n` before it whole. */
  predicate Separates(n: Bytes, d: Bytes) {
    (CodeAt(d, 0) && !EndsZero(n)) || (CodeAt(d, 1) && d[0] == 0)
  }

  lemma BeginsWithCode(d: Bytes, long: bool)
    requires if long then CodeAt(d, 1) && d[0] == 0 else CodeAt(d, 0)
    ensures d == Code(long) + d[|Code(long)|..]
    ensures RawUnits(d) == UnitsFrom(d, |Code(long)|)
  {
    if long {
      assert d[..4] == [0, 0, 0, 1];
      assert d == d[..4] + d[4..];
      assert NextCode(d, 0) == NextCode(d, 1) == 1;
    } else {
      assert d[..3] == [0, 0, 1];
      assert d == d[..3] + d[3..];
      assert NextCode(d, 0) == 0;
    }
  }

  /** A repeated set in front of an access unit is scanned whole exactly when `d` separates from it. */
  lemma SetBefore(o: Bytes, a: nat, n: Bytes, d: Bytes)
    requires 1 <= a && Stands(o, a, n) && o[a - 1] == 1 && o[a + |n|..] == d
    requires n != [] && !HasCode(n) && RawUnits(d) != []
    ensures UnitsFrom(o, a)[0] == n <==> Separates(n, d)
    ensures Separates(n, d) ==> UnitsFrom(o, a) == [n] + RawUnits(d)
  {
    if Separates(n, d) {
      SetKept(o, a, n, d, CodeAt(d, 1) && d[0] == 0);
    } else if UnitsFrom(o, a)[0] == n {
      SetWhole(o, a, n, d);
    }
  }

  lemma SetKept(o: Bytes, a: nat, n: Bytes, d: Bytes, long: bool)
    requires 1 <= a && Stands(o, a, n) && o[a - 1] == 1 && o[a + |n|..] == d
    requires n != [] && !HasCode(n)
    requires if long then CodeAt(d, 1) && d[0] == 0 else CodeAt(d, 0) && !EndsZero(n)
    ensures UnitsFrom(o, a) == [n] + RawUnits(d)
  {
    var e, k := a + |n|, |Code(long)|;
    CodeFollows(o, e, d, long);
    UnitThenCode(o, a, n, long);
    BeginsWithCode(d, long);
    SameUnits(o, e + k, d, k);
    assert UnitsFrom(o, a) == [n] + UnitsFrom(o, e + k);
  }

  lemma CodeFollows(o: Bytes, e: nat, d: Bytes, long: bool)
    requires e <= |o| && o[e..] == d
    requires if long then CodeAt(d, 1) && d[0] == 0 else CodeAt(d, 0)
    ensures Stands(o, e, Code(long)) && o[e + |Code(long)|..] == d[|Code(long)|..]
    ensures o[e + |Code(long)| - 1] == d[|Code(long)| - 1] == 1
  {
    BeginsWithCode(d, long);
    var k := |Code(long)|;
    SplitAt(o, e, Code(long), d[k..]);
    assert o[e + k - 1] == o[e..][k - 1];
  }

  lemma SetWhole(o: Bytes, a: nat, n: Bytes, d: Bytes)
    requires 1 <= a && Stands(o, a, n) && o[a - 1] == 1 && o[a + |n|..] == d
    requires n != [] && RawUnits(d) != []
    requires UnitsFrom(o, a)[0] == n
    ensures Separates(n, d)
  {
    var e, q, f := a + |n|, NextCode(o, a), NextCode(d, 0);
    WholeEnds(o, a, n);
    assert f < |d|;
    hide UnitsFrom, RawUnits, Stands;
    SliceCode(o, e, |o|, e + f);
    assert o[e..|o|] == d;
    assert CodeAt(o, e + f);
    LastByte(o, a, n);
    assert q == e || q == e + 1;
    SliceCode(o, e, |o|, q);
    assert d[0] == o[e];
  }

  lemma WholeEnds(o: Bytes, a: nat, n: Bytes)
    requires 1 <= a && Stands(o, a, n) && o[a - 1] == 1 && UnitsFrom(o, a)[0] == n
    ensures End(o, a) == a + |n|
  {
    assert |o[a..End(o, a)]| == End(o, a) - a;
  }

  /** When repetition can be undone: the caller sees the unit count and how the access unit begins. */
  ghost predicate Repeatable(missing: seq<Coded>, d: Bytes) {
    missing != [] ==>
      && |missing| + |RawUnits(d)| <= MAX_UNITS
      && Separates(missing[|missing| - 1].nal, d)
  }

  lemma PrependedRaw(missing: seq<Coded>, d: Bytes)
    requires 1 <= |missing| <= 2 && RawUnits(d) != []
    requires forall m | m in missing :: m.long && m.nal != [] && !HasCode(m.nal)
    ensures var o := Join(missing) + d;
            var k := |missing| - 1;
            && |RawUnits(o)| > k
            && (RawUnits(o)[k] == missing[k].nal <==> Separates(missing[k].nal, d))
            && (Separates(missing[k].nal, d) ==> RawUnits(o) == NalsOf(missing) + RawUnits(d))
  {
    var n := missing[0].nal;
    if |missing| == 1 {
      assert missing == [Coded(true, n)] && NalsOf(missing) == [n];
      OnePrepended(n, d);
    } else {
      var m := missing[1].nal;
      assert missing == [Coded(true, n), Coded(true, m)] && NalsOf(missing) == [n, m];
      TwoPrepended(n, m, d);
    }
  }

  lemma OnePrepended(n: Bytes, d: Bytes)
    requires n != [] && !HasCode(n) && RawUnits(d) != []
    ensures var o := Join([Coded(true, n)]) + d;
            && RawUnits(o) != []
            && (RawUnits(o)[0] == n <==> Separates(n, d))
            && (Separates(n, d) ==> RawUnits(o) == [n] + RawUnits(d))
  {
    var o := Join([Coded(true, n)]) + d;
    assert o == Code(true) + (n + d);
    hide UnitsFrom, NextCode, CodeAt, HasCode, Separates, Join, RawUnits;
    FirstCode(o, true, n + d);
    SplitAt(o, 4, n, d);
    SetBefore(o, 4, n, d);
  }

  lemma TwoPrepended(n: Bytes, m: Bytes, d: Bytes)
    requires n != [] && !HasCode(n) && m != [] && !HasCode(m) && RawUnits(d) != []
    ensures var o := Join([Coded(true, n), Coded(true, m)]) + d;
            && |RawUnits(o)| > 1
            && (RawUnits(o)[1] == m <==> Separates(m, d))
            && (Separates(m, d) ==> RawUnits(o) == [n, m] + RawUnits(d))
  {
    hide UnitsFrom, NextCode, CodeAt, HasCode, Stands, Separates, Join, RawUnits;
    var o, b := Join([Coded(true, n), Coded(true, m)]) + d, 8 + |n|;
    TwoJoined(n, m, d);
    TwoLaid(o, n, m, d);
    assert RawUnits(o) == [n] + UnitsFrom(o, b) by {
      UnitThenCode(o, 4, n, true);
    }
    SetBefore(o, b, m, d);
    TwoFirst(n, m, UnitsFrom(o, b), RawUnits(d));
  }

  lemma TwoFirst(n: Bytes, m: Bytes, u: seq<Bytes>, r: seq<Bytes>)
    requires u != []
    ensures |[n] + u| > 1 && ([n] + u)[1] == u[0]
    ensures u == [m] + r ==> [n] + u == [n, m] + r
  {
  }

  lemma TwoLaid(o: Bytes, n: Bytes, m: Bytes, d: Bytes)
    requires o == Code(true) + (n + (Code(true) + (m + d)))
    ensures |o| >= 8 + |n| && o[3] == o[7 + |n|] == 1 && RawUnits(o) == UnitsFrom(o, 4)
    ensures Stands(o, 4, n) && Stands(o, 4 + |n|, Code(true)) && Stands(o, 8 + |n|, m)
    ensures 8 + |n| + |m| <= |o| && o[8 + |n| + |m|..] == d
  {
    var c := Code(true);
    FirstCode(o, true, n + (c + (m + d)));
    SplitAt(o, 4, n, c + (m + d));
    SplitAt(o, 4 + |n|, c, m + d);
    SplitAt(o, 8 + |n|, m, d);
    CodeStands(o, 4 + |n|, true);
  }

  lemma TwoJoined(n: Bytes, m: Bytes, d: Bytes)
    ensures Join([Coded(true, n), Coded(true, m)]) + d == Code(true) + (n + (Code(true) + (m + d)))
  {
    var us := [Coded(true, n), Coded(true, m)];
    var c := Code(true);
    assert us[1..] == [Coded(true, m)];
    assert Join(us[1..]) == c + m;
    assert Join(us) == c + (n + (c + m));
    assert (c + (n + (c + m))) + d == c + (n + (c + (m + d)));
  }

  /** What `Missing` lists, once `Prepare` has succeeded. */
  lemma MissingOk(s: Stored, d: Bytes)
    requires StoredOk(s) && PrepareSpec(s, d).1.Ok?
    ensures var m := Missing(PrepareSpec(s, d).0, Units(d).value);
            && |m| <= 2
            && (forall c | c in m :: c.long && c.nal != [] && !HasCode(c.nal) && Kind(c.nal) in {SPS, PPS})
  {
    PrepareKeepsStored(s, d);
  }

  /**
   Scanning the prepared access unit gives the repeated sets followed by the original units,
   exactly when the access unit is repeatable.
   */
  lemma RepetitionScans(s: Stored, d: Bytes)
    requires StoredOk(s) && PrepareSpec(s, d).1.Ok?
    ensures var nals := Units(d).value;
            var missing := Missing(PrepareSpec(s, d).0, nals);
            Units(PrepareSpec(s, d).1.value.data) == Ok(NalsOf(missing) + nals) <==> Repeatable(missing, d)
  {
    var nals := Units(d).value;
    var missing := Missing(PrepareSpec(s, d).0, nals);
    var o := PrepareSpec(s, d).1.value.data;
    PreparedData(s, d);
    hide *;
    MissingOk(s, d);
    if missing == [] {
      NothingRepeated(missing, d);
    } else {
      PrependedUnits(missing, d);
    }
  }

  lemma PreparedData(s: Stored, d: Bytes)
    requires PrepareSpec(s, d).1.Ok?
    ensures Units(d).Ok? && PrepareSpec(s, d).1.value.data == Join(Missing(PrepareSpec(s, d).0, Units(d).value)) + d
  {
    hide Units, Join, Missing, Absorb, HasKind;
  }

  lemma NothingRepeated(missing: seq<Coded>, d: Bytes)
    requires missing == [] && Units(d).Ok?
    ensures Join(missing) + d == d && NalsOf(missing) + Units(d).value == Units(d).value && Repeatable(missing, d)
  {
    hide Units;
  }

  lemma PrependedUnits(missing: seq<Coded>, d: Bytes)
    requires 1 <= |missing| <= 2 && Units(d).Ok?
    requires forall m | m in missing :: m.long && m.nal != [] && !HasCode(m.nal)
    ensures Units(Join(missing) + d) == Ok(NalsOf(missing) + Units(d).value) <==> Repeatable(missing, d)
  {
    hide RawUnits, Join, Separates, HasCode, NalsOf;
    PrependedRaw(missing, d);
    var names, raw := NalsOf(missing), RawUnits(d);
    var u, k := names + raw, |missing| - 1;
    NalsOfAt(missing, k);
    assert u[k] == missing[k].nal;
    forall i | 0 <= i < |missing|
      ensures names[i] != []
    {
      NalsOfAt(missing, i);
    }
    assert [] !in u;
  }

  /**
   On a repeatable access unit the keyframe bit is the decoder's IDR test, and a keyframe
   brings both parameter sets with it.
   */
  lemma KeyframeAgrees(s: Stored, d: Bytes)
    requires StoredOk(s) && PrepareSpec(s, d).1.Ok?
    requires Repeatable(Missing(PrepareSpec(s, d).0, Units(d).value), d)
    ensures var p := PrepareSpec(s, d).1.value;
            && Nals(p.data).Ok?
            && p.keyframe == HasKind(Nals(p.data).value, IDR)
            && (p.keyframe ==> HasKind(Nals(p.data).value, SPS) && HasKind(Nals(p.data).value, PPS))
  {
    RepetitionScans(s, d);
    PrepareKeepsStored(s, d);
    var t, nals := PrepareSpec(s, d).0, Units(d).value;
    var m := NalsOf(Missing(t, nals));
    if HasKind(nals, IDR) {
      if !HasKind(nals, SPS) {
        assert m[0] in m + nals;
      }
      if !HasKind(nals, PPS) {
        assert m[|m| - 1] in m + nals;
      }
    }
  }

  // What a call does, unit by unit

  /** A unit of the type that its first byte's low five bits tell (ITU-T H.264, section 7.3.1). */
  predicate IsOf(n: Bytes, kind: int) {
    n != [] && n[0] % 0x20 == kind
  }

  /** `r` is the last unit of the kind, or what there was before if there is none. */
  ghost predicate LastOf(before: Bytes, nals: seq<Bytes>, kind: int, r: Bytes) {
    || (exists i | 0 <= i < |nals| :: IsOf(nals[i], kind) && r == nals[i]
                                      && forall j | i < j < |nals| :: !IsOf(nals[j], kind))
    || (r == before && forall j | 0 <= j < |nals| :: !IsOf(nals[j], kind))
  }

  lemma {:induction false} LastIsLast(before: Bytes, nals: seq<Bytes>, kind: int)
    ensures LastOf(before, nals, kind, Last(before, nals, kind))
    decreases |nals|
  {
    if nals != [] {
      var k := |nals| - 1;
      var r := Last(before, nals[..k], kind);
      if IsOf(nals[k], kind) {
        assert Last(before, nals, kind) == nals[k];
      } else {
        LastIsLast(before, nals[..k], kind);
        assert Last(before, nals, kind) == r;
        assert forall j | 0 <= j < k :: nals[..k][j] == nals[j];
        if exists i | 0 <= i < k :: IsOf(nals[i], kind) {
          var i :| 0 <= i < k && IsOf(nals[..k][i], kind) && r == nals[..k][i]
                   && forall j | i < j < k :: !IsOf(nals[..k][j], kind);
          assert IsOf(nals[i], kind) && r == nals[i] && forall j | i < j < |nals| :: !IsOf(nals[j], kind);
        }
      }
    }
  }

  /**
   What one call does: the sets seen last are stored, also when it fails. The access unit comes out with one SPS
   in front exactly if it has an IDR unit and no SPS, and then one PPS exactly if it has an IDR unit and no PPS.
   */
  lemma PreparedExactly(s: Stored, d: Bytes)
    ensures Units(d).Err? ==> PrepareSpec(s, d) == (s, Err(Units(d).error))
    ensures Units(d).Ok? ==>
            var nals := Units(d).value;
            var (t, r) := PrepareSpec(s, d);
            var idr := exists n | n in nals :: IsOf(n, 5);
            var sps := if idr && !(exists n | n in nals :: IsOf(n, 7)) then [0, 0, 0, 1] + t.sps else [];
            var pps := if idr && !(exists n | n in nals :: IsOf(n, 8)) then [0, 0, 0, 1] + t.pps else [];
            && LastOf(s.sps, nals, 7, t.sps) && LastOf(s.pps, nals, 8, t.pps)
            && (r == Err(MissingParameterSets) <==> idr && (t.sps == [] || t.pps == []))
            && (r == Err(Oversized) <==> !(idr && (t.sps == [] || t.pps == []))
                                         && |sps| + |pps| + |d| > 2 * 1024 * 1024)
            && (r.Err? ==> r.error in {MissingParameterSets, Oversized})
            && (r.Ok? ==> r.value.data == sps + pps + d && (r.value.keyframe <==> idr))
  {
    if Units(d).Ok? {
      var nals := Units(d).value;
      LastIsLast(s.sps, nals, SPS);
      LastIsLast(s.pps, nals, PPS);
      JoinMissing(Absorb(s, nals), nals);
      KindsOccur(nals);
    }
    hide Units, Join, Missing, Last, LastOf, HasKind, IsOf;
  }

  lemma KindsOccur(nals: seq<Bytes>)
    ensures HasKind(nals, SPS) <==> exists n | n in nals :: IsOf(n, 7)
    ensures HasKind(nals, PPS) <==> exists n | n in nals :: IsOf(n, 8)
    ensures HasKind(nals, IDR) <==> exists n | n in nals :: IsOf(n, 5)
  {
    assert forall n: Bytes, k: int :: IsOf(n, k) <==> n != [] && Kind(n) == k;
  }

  // Where repetition fails

  const FIRST: seq<Coded> := [Coded(true, [7, 1]), Coded(true, [8, 0]), Coded(true, [5, 1])]
  const SECOND: seq<Coded> := [Coded(false, [5, 2])]
  const MERGED: seq<Coded> := [Coded(true, [7, 1]), Coded(true, [8]), Coded(true, [5, 2])]

  /**
   Two access units in a row: the first brings a PPS that ends in 00, the second an IDR alone behind a
   three-byte start code. The host succeeds, but its repeated PPS is scanned without its last byte.
   */
  lemma RepetitionFails()
    ensures var a := PrepareSpec(Stored([], []), Join(FIRST));
            var b := PrepareSpec(a.0, Join(SECOND));
            && a.1.Ok? && a.0 == Stored([7, 1], [8, 0]) && b.1.Ok?
            && Units(b.1.value.data) == Ok([[7, 1], [8], [5, 2]])
            && !Repeatable(Missing(b.0, Units(Join(SECOND)).value), Join(SECOND))
  {
    ShortLists();
    PrintableScans(FIRST);
    PrintableScans(SECOND);
    PrintableScans(MERGED);
    FirstPrepared();
    SecondPrepared();
    var b := PrepareSpec(Stored([7, 1], [8, 0]), Join(SECOND));
    hide Units, Join, Repeatable, PrepareSpec, Missing, HasCode;
    RepetitionScans(Stored([7, 1], [8, 0]), Join(SECOND));
  }

  lemma ShortLists()
    ensures Printable(FIRST) && Printable(SECOND) && Printable(MERGED)
    ensures NalsOf(FIRST) == [[7, 1], [8, 0], [5, 1]] && NalsOf(SECOND) == [[5, 2]]
    ensures NalsOf(MERGED) == [[7, 1], [8], [5, 2]]
    ensures StoredOk(Stored([7, 1], [8, 0]))
  {
  }

  /** The lists written out. */
  lemma ShortBytes()
    ensures Join(FIRST) == [0, 0, 0, 1, 7, 1, 0, 0, 0, 1, 8, 0, 0, 0, 0, 1, 5, 1]
    ensures Join(SECOND) == [0, 0, 1, 5, 2]
    ensures Join(MERGED) == [0, 0, 0, 1, 7, 1, 0, 0, 0, 1, 8, 0, 0, 0, 1, 5, 2]
  {
    OneCoded(Coded(true, [5, 1]));
    OneCoded(Coded(false, [5, 2]));
    OneCoded(Coded(true, [5, 2]));
    assert FIRST[1..] == [Coded(true, [8, 0]), Coded(true, [5, 1])] && FIRST[1..][1..] == [Coded(true, [5, 1])];
    assert MERGED[1..] == [Coded(true, [8]), Coded(true, [5, 2])] && MERGED[1..][1..] == [Coded(true, [5, 2])];
  }

  lemma OneCoded(c: Coded)
    ensures Join([c]) == Code(c.long) + c.nal
  {
    assert Join([]) == [];
  }

  lemma ShortAbsorbed()
    ensures Absorb(Stored([], []), [[7, 1], [8, 0], [5, 1]]) == Stored([7, 1], [8, 0])
    ensures Absorb(Stored([7, 1], [8, 0]), [[5, 2]]) == Stored([7, 1], [8, 0])
    ensures Kinds([[7, 1], [8, 0], [5, 1]]) == (true, true, true) && Kinds([[5, 2]]) == (false, false, true)
  {
    var a: seq<Bytes> := [[7, 1], [8, 0], [5, 1]];
    assert a[..2] == [[7, 1], [8, 0]] && a[..2][..1] == [[7, 1]];
    assert Last([], [[7, 1]], SPS) == [7, 1] && Last([], a[..2], SPS) == [7, 1];
    var b: seq<Bytes> := [[5, 2]];
    assert b[..0] == [] && b[0] in b;
    assert a[0] in a && a[1] in a && a[2] in a;
  }

  lemma FirstPrepared()
    requires Units(Join(FIRST)) == Ok([[7, 1], [8, 0], [5, 1]])
    ensures PrepareSpec(Stored([], []), Join(FIRST)) == (Stored([7, 1], [8, 0]), Ok(Prepared(Join(FIRST), true)))
  {
    ShortAbsorbed();
    ShortBytes();
    hide Units, Last, HasKind;
    JoinMissing(Stored([7, 1], [8, 0]), [[7, 1], [8, 0], [5, 1]]);
    hide Join;
    assert [] + Join(FIRST) == Join(FIRST);
  }

  lemma SecondPrepared()
    requires Units(Join(SECOND)) == Ok([[5, 2]])
    ensures PrepareSpec(Stored([7, 1], [8, 0]), Join(SECOND))
            == (Stored([7, 1], [8, 0]), Ok(Prepared(Join(MERGED), true)))
    ensures NalsOf(Missing(Stored([7, 1], [8, 0]), [[5, 2]])) == [[7, 1], [8, 0]]
  {
    ShortAbsorbed();
    ShortBytes();
    hide Units, Last, HasKind;
    JoinMissing(Stored([7, 1], [8, 0]), [[5, 2]]);
    hide Join;
    assert (([0, 0, 0, 1] + [7, 1]) + ([0, 0, 0, 1] + [8, 0])) + Join(SECOND) == Join(MERGED);
  }
}
