/**
 The binary field codec. Every message of the protocol is a list of typed fields, written one after
 the other; this module models the writer and the reader once, over the list of field types.
 */
module Wire {
  import opened Base

  const MAX_TEXT: nat := 1024

  datatype Field = U8 | U16 | U32Field | U64 | I32 | F32 | Blob | Text

  /** A field's value: a number (for a float its bit pattern) or bytes (for a string its UTF-8). */
  datatype Value = Num(n: int) | Data(b: Bytes)

  datatype WireError =
    | Truncated | TooLarge | NotFinite | TooLong | NotUtf8 | Trailing | BadMagic | BadVersion | BadLength | Unexpected

  // Numbers

  function Pow256(k: nat): (r: nat)
    ensures r > 0
  {
    if k == 0 then 1 else 256 * Pow256(k - 1)
  }

  /** Little-endian, `k` bytes, higher bytes cut off. */
  function Le(n: nat, k: nat): (r: Bytes)
    ensures |r| == k
  {
    if k == 0 then [] else [n % 256] + Le(n / 256, k - 1)
  }

  function FromLe(b: Bytes): nat {
    if b == [] then 0 else b[0] + 256 * FromLe(b[1..])
  }

  lemma {:induction false} FromLeBound(b: Bytes)
    ensures FromLe(b) < Pow256(|b|)
  {
    if b != [] {
      FromLeBound(b[1..]);
    }
  }

  lemma {:induction false} LeFromLe(b: Bytes)
    ensures Le(FromLe(b), |b|) == b
  {
    if b != [] {
      LeFromLe(b[1..]);
      var n := FromLe(b[1..]);
      assert (b[0] + 256 * n) % 256 == b[0] && (b[0] + 256 * n) / 256 == n;
    }
  }

  lemma {:induction false} FromLeLe(n: nat, k: nat)
    requires n < Pow256(k)
    ensures FromLe(Le(n, k)) == n
  {
    if k > 0 {
      assert n / 256 < Pow256(k - 1);
      FromLeLe(n / 256, k - 1);
      assert Le(n, k)[1..] == Le(n / 256, k - 1);
    }
  }

  /** The bytes of a number, lowest first. */
  lemma {:induction false} LeByte(n: nat, k: nat, i: nat)
    requires i < k
    ensures Le(n, k)[i] == n / Pow256(i) % 256
  {
    if i > 0 {
      LeByte(n / 256, k - 1, i - 1);
      assert Le(n, k)[i] == Le(n / 256, k - 1)[i - 1];
      DivTwice(n, Pow256(i - 1));
    }
  }

  lemma DivTwice(n: nat, m: nat)
    requires m > 0
    ensures n / 256 / m == n / (256 * m)
  {
    var q, r := n / 256, n % 256;
    var a, b := q / m, q % m;
    assert n == 256 * q + r && q == m * a + b;
    assert n == (256 * m) * a + (256 * b + r) by {
      assert 256 * (m * a) == (256 * m) * a;
    }
    assert 0 <= 256 * b + r < 256 * m;
    DivUnique(n, 256 * m, a, 256 * b + r);
  }

  lemma DivUnique(n: nat, d: nat, q: nat, r: nat)
    requires n == d * q + r && r < d
    ensures n / d == q
  {
    var k := n / d;
    MulGrows(d, k + 1, q);
    MulGrows(d, q + 1, k);
  }

  lemma MulGrows(d: nat, a: nat, b: nat)
    ensures a <= b ==> d * a <= d * b
  {
    if a <= b {
      assert d * b == d * a + d * (b - a);
    }
  }

  /** The two's complement of a signed 32-bit number, and back. */
  function Unsigned(n: int): int {
    if n < 0 then n + U32 else n
  }

  function Signed(n: int): int {
    if n >= U32 / 2 then n - U32 else n
  }

  /** An IEEE 754 single whose exponent bits are not all ones. */
  predicate Finite(bits: int) {
    bits / 0x80_0000 % 256 != 255
  }

  // UTF-8

  predicate Trail(b: u8, low: int, high: int) {
    low <= b <= high
  }

  /** Well-formed UTF-8. */
  predicate Utf8(s: Bytes)
    decreases |s|
  {
    if s == [] then true
    else
      var n := SequenceLength(s);
      n > 0 && Utf8(s[n..])
  }

  /** The length of the well-formed sequence `s` begins with, or 0. */
  function SequenceLength(s: Bytes): (n: nat)
    requires s != []
    ensures n <= |s|
  {
    var a := s[0];
    if a < 0x80 then 1
    else if 0xC2 <= a <= 0xDF && |s| >= 2 && Trail(s[1], 0x80, 0xBF) then 2
    else if 0xE0 <= a <= 0xEF && |s| >= 3
      && Trail(s[1], if a == 0xE0 then 0xA0 else 0x80, if a == 0xED then 0x9F else 0xBF)
            && Trail(s[2], 0x80, 0xBF) then 3
    else if 0xF0 <= a <= 0xF4 && |s| >= 4
      && Trail(s[1], if a == 0xF0 then 0x90 else 0x80, if a == 0xF4 then 0x8F else 0xBF)
            && Trail(s[2], 0x80, 0xBF) && Trail(s[3], 0x80, 0xBF) then 4
    else 0
  }

  /** A Unicode scalar value: a code point that is not a surrogate. */
  predicate Scalar(c: nat) {
    c < 0xD800 || 0xE000 <= c < 0x11_0000
  }

  /** Its encoding (RFC 3629, section 3). */
  function Utf8Of(c: nat): (r: Bytes)
    requires Scalar(c)
    ensures 1 <= |r| <= 4
  {
    if c < 0x80 then [c]
    else if c < 0x800 then [0xC0 + c / 0x40, 0x80 + c % 0x40]
    else if c < 0x1_0000 then [0xE0 + c / 0x1000, 0x80 + c / 0x40 % 0x40, 0x80 + c % 0x40]
    else [0xF0 + c / 0x4_0000, 0x80 + c / 0x1000 % 0x40, 0x80 + c / 0x40 % 0x40, 0x80 + c % 0x40]
  }

  function Utf8All(cs: seq<nat>): Bytes
    requires forall i | 0 <= i < |cs| :: Scalar(cs[i])
  {
    if cs == [] then [] else Utf8Of(cs[0]) + Utf8All(cs[1..])
  }

  lemma TwoBytes(a: int, b: int) returns (c: nat)
    requires 0xC2 <= a <= 0xDF && 0x80 <= b <= 0xBF
    ensures Scalar(c) && Utf8Of(c) == [a, b]
  {
    c := (a - 0xC0) * 0x40 + (b - 0x80);
  }

  lemma ThreeBytes(a: int, b: int, d: int) returns (c: nat)
    requires 0xE0 <= a <= 0xEF && 0x80 <= b <= 0xBF && 0x80 <= d <= 0xBF
    requires (a == 0xE0 ==> b >= 0xA0) && (a == 0xED ==> b <= 0x9F)
    ensures Scalar(c) && Utf8Of(c) == [a, b, d]
  {
    var h := (a - 0xE0) * 0x40 + (b - 0x80);
    c := h * 0x40 + (d - 0x80);
    assert c / 0x40 == h && c % 0x40 == d - 0x80 && c / 0x1000 == a - 0xE0;
  }

  lemma FourBytes(a: int, b: int, d: int, e: int) returns (c: nat)
    requires 0xF0 <= a <= 0xF4 && 0x80 <= b <= 0xBF && 0x80 <= d <= 0xBF && 0x80 <= e <= 0xBF
    requires (a == 0xF0 ==> b >= 0x90) && (a == 0xF4 ==> b <= 0x8F)
    ensures Scalar(c) && Utf8Of(c) == [a, b, d, e]
  {
    var g := (a - 0xF0) * 0x40 + (b - 0x80);
    var h := g * 0x40 + (d - 0x80);
    c := h * 0x40 + (e - 0x80);
    assert c / 0x40 == h && c % 0x40 == e - 0x80 && c / 0x1000 == g && c / 0x4_0000 == a - 0xF0;
  }

  lemma SequenceScalar(s: Bytes) returns (c: nat)
    requires s != [] && SequenceLength(s) > 0
    ensures Scalar(c) && Utf8Of(c) == s[..SequenceLength(s)]
  {
    var n := SequenceLength(s);
    if n == 1 {
      c := s[0];
      hide SequenceLength;
    } else if n == 2 {
      c := TwoBytes(s[0], s[1]);
      hide *;
    } else if n == 3 {
      c := ThreeBytes(s[0], s[1], s[2]);
      hide *;
    } else {
      c := FourBytes(s[0], s[1], s[2], s[3]);
      hide *;
    }
  }

  lemma ScalarSequence(c: nat, rest: Bytes)
    requires Scalar(c)
    ensures SequenceLength(Utf8Of(c) + rest) == |Utf8Of(c)|
  {
    var s := Utf8Of(c) + rest;
    if c < 0x80 {
    } else if c < 0x800 {
      assert s[1] == 0x80 + c % 0x40;
    } else if c < 0x1_0000 {
      assert s[1] == 0x80 + c / 0x40 % 0x40 && s[2] == 0x80 + c % 0x40;
    } else {
      assert s[1] == 0x80 + c / 0x1000 % 0x40 && s[2] == 0x80 + c / 0x40 % 0x40 && s[3] == 0x80 + c % 0x40;
    }
  }

  lemma {:induction false} Utf8Decodes(s: Bytes) returns (cs: seq<nat>)
    requires Utf8(s)
    ensures (forall i | 0 <= i < |cs| :: Scalar(cs[i])) && s == Utf8All(cs)
    decreases |s|
  {
    hide SequenceLength, Utf8Of, Scalar, Utf8All;
    if s == [] {
      cs := NothingEncoded();
    } else {
      var n := SequenceLength(s);
      var c := SequenceScalar(s);
      var more := Utf8Decodes(s[n..]);
      cs := [c] + more;
      OneMoreEncoded(c, more);
      assert s == s[..n] + s[n..];
    }
  }

  lemma NothingEncoded() returns (cs: seq<nat>)
    ensures cs == [] && Utf8All(cs) == []
  {
    cs := [];
  }

  lemma OneMoreEncoded(c: nat, more: seq<nat>)
    requires Scalar(c) && forall i | 0 <= i < |more| :: Scalar(more[i])
    ensures (forall i | 0 <= i < |[c] + more| :: Scalar(([c] + more)[i]))
    ensures Utf8All([c] + more) == Utf8Of(c) + Utf8All(more)
  {
    hide Scalar, Utf8Of;
    assert ([c] + more)[1..] == more;
  }

  lemma {:induction false} Utf8Encodes(cs: seq<nat>)
    requires forall i | 0 <= i < |cs| :: Scalar(cs[i])
    ensures Utf8(Utf8All(cs))
    decreases |cs|
  {
    if cs != [] {
      var rest := Utf8All(cs[1..]);
      Utf8Encodes(cs[1..]);
      ScalarSequence(cs[0], rest);
      hide SequenceLength, Utf8Of, Scalar;
      var s := Utf8Of(cs[0]) + rest;
      assert s[|Utf8Of(cs[0])|..] == rest;
    }
  }

  /** Some list of scalar values is encoded in these bytes. */
  ghost predicate EncodesSome(s: Bytes) {
    exists cs: seq<nat> :: (forall i | 0 <= i < |cs| :: Scalar(cs[i])) && s == Utf8All(cs)
  }

  /** The texts taken are exactly the encodings of Unicode scalar values. */
  lemma Utf8Exactly(s: Bytes)
    ensures Utf8(s) <==> EncodesSome(s)
  {
    if Utf8(s) {
      var cs := Utf8Decodes(s);
      assert EncodesSome(s);
    } else if EncodesSome(s) {
      var cs: seq<nat> :| (forall i | 0 <= i < |cs| :: Scalar(cs[i])) && s == Utf8All(cs);
      Utf8Encodes(cs);
    }
  }

  // Fields

  /** What the type of a field allows its value to be, before it is written. */
  predicate Typed(t: Field, v: Value) {
    match t
    case U8 => v.Num? && 0 <= v.n < 0x100
    case U16 => v.Num? && 0 <= v.n < 0x1_0000
    case U32Field => v.Num? && 0 <= v.n < U32
    case U64 => v.Num? && 0 <= v.n < U32 * U32
    case I32 => v.Num? && -U32 / 2 <= v.n < U32 / 2
    case F32 => v.Num? && 0 <= v.n < U32
    case Blob => v.Data?
    case Text => v.Data? && Utf8(v.b)
  }

  /** What a reader accepts. */
  predicate Fits(t: Field, v: Value) {
    && Typed(t, v)
    && (t.F32? ==> Finite(v.n))
    && (t.Blob? ==> |v.b| <= MAX_FRAME)
    && (t.Text? ==> |v.b| <= MAX_TEXT)
  }

  /** The width of a number field. */
  function Width(t: Field): (k: nat)
    ensures k <= 8
  {
    match t
    case U8 => 1
    case U16 => 2
    case U64 => 8
    case _ => 4
  }

  function EncodeField(t: Field, v: Value): Bytes
    requires Typed(t, v)
  {
    match v
    case Num(n) => Le(if t.I32? then Unsigned(n) else n, Width(t))
    case Data(b) => Le(|b|, 4) + b
  }

  datatype Read<T> = Read(value: T, rest: Bytes)

  function Take(d: Bytes, n: nat): Result<Read<Bytes>, WireError> {
    if n > |d| then Err(Truncated) else Ok(Read(d[..n], d[n..]))
  }

  function TakeNum(d: Bytes, k: nat): Result<Read<nat>, WireError> {
    var r :- Take(d, k);
    Ok(Read(FromLe(r.value), r.rest))
  }

  function TakeBlob(d: Bytes): Result<Read<Bytes>, WireError> {
    var n :- TakeNum(d, 4);
    if n.value > MAX_FRAME then Err(TooLarge) else Take(n.rest, n.value)
  }

  function DecodeField(t: Field, d: Bytes): Result<Read<Value>, WireError> {
    if t.Blob? || t.Text? then
      var b :- TakeBlob(d);
      if t.Text? && |b.value| > MAX_TEXT then Err(TooLong)
      else if t.Text? && !Utf8(b.value) then Err(NotUtf8)
      else Ok(Read(Data(b.value), b.rest))
    else
      var n :- TakeNum(d, Width(t));
      if t.F32? && !Finite(n.value) then Err(NotFinite)
      else Ok(Read(Num(if t.I32? then Signed(n.value) else n.value), n.rest))
  }

  // Messages

  ghost predicate AllTyped(ts: seq<Field>, vs: seq<Value>) {
    |vs| == |ts| && forall i | 0 <= i < |ts| :: Typed(ts[i], vs[i])
  }

  ghost predicate AllFit(ts: seq<Field>, vs: seq<Value>) {
    |vs| == |ts| && forall i | 0 <= i < |ts| :: Fits(ts[i], vs[i])
  }

  ghost function EncodeFields(ts: seq<Field>, vs: seq<Value>): Bytes
    requires AllTyped(ts, vs)
    decreases |ts|
  {
    if ts == [] then []
    else
      var k := |ts| - 1;
      EncodeFields(ts[..k], vs[..k]) + EncodeField(ts[k], vs[k])
  }

  function DecodeFields(ts: seq<Field>, d: Bytes): Result<Read<seq<Value>>, WireError>
    decreases |ts|
  {
    if ts == [] then Ok(Read([], d))
    else
      var r :- DecodeFields(ts[..|ts| - 1], d);
      var f :- DecodeField(ts[|ts| - 1], r.rest);
      Ok(Read(r.value + [f.value], f.rest))
  }

  /** A whole body: nothing may be left over. */
  function DecodeBody(ts: seq<Field>, d: Bytes): Result<seq<Value>, WireError> {
    var r :- DecodeFields(ts, d);
    if r.rest != [] then Err(Trailing) else Ok(r.value)
  }

  /** How many bytes a number takes, and what number they make: two's complement for a signed one. */
  ghost predicate Numbered(t: Field, v: Value, width: nat, n: nat) {
    match t
    case U8 => width == 1 && v == Num(n)
    case U16 => width == 2 && v == Num(n)
    case U64 => width == 8 && v == Num(n)
    case I32 => width == 4 && v.Num? && n == v.n % 0x1_0000_0000
    case U32Field => width == 4 && v == Num(n)
    case F32 => width == 4 && v == Num(n)
    case _ => false
  }

  /** Each field's bytes: numbers lowest byte first, bytes and strings behind their length in four bytes. */
  lemma FieldLayout(t: Field, v: Value)
    requires Typed(t, v)
    ensures forall width: nat, n: nat | Numbered(t, v, width, n) ::
              && |EncodeField(t, v)| == width
              && forall i | 0 <= i < width :: EncodeField(t, v)[i] == n / Pow256(i) % 256
    ensures v.Data? ==>
              && |EncodeField(t, v)| == 4 + |v.b| && EncodeField(t, v)[4..] == v.b
              && forall i | 0 <= i < 4 :: EncodeField(t, v)[i] == |v.b| / Pow256(i) % 256
  {
    hide Le, Pow256, Utf8;
    forall width: nat, n: nat | Numbered(t, v, width, n)
      ensures |EncodeField(t, v)| == width
      ensures forall i | 0 <= i < width :: EncodeField(t, v)[i] == n / Pow256(i) % 256
    {
      assert EncodeField(t, v) == Le(n, width);
      forall i | 0 <= i < width
        ensures EncodeField(t, v)[i] == n / Pow256(i) % 256
      {
        LeByte(n, width, i);
      }
    }
    if v.Data? {
      forall i | 0 <= i < 4
        ensures EncodeField(t, v)[i] == |v.b| / Pow256(i) % 256
      {
        LeByte(|v.b|, 4, i);
      }
    }
  }

  // The codec is a bijection

  lemma Widths()
    ensures Pow256(1) == 0x100 && Pow256(2) == 0x1_0000 && Pow256(4) == U32 && Pow256(8) == U32 * U32
  {
    assert Pow256(5) == 256 * Pow256(4) && Pow256(6) == 256 * Pow256(5);
    assert Pow256(7) == 256 * Pow256(6) && Pow256(8) == 256 * Pow256(7);
  }

  lemma TakeBack(x: Bytes, rest: Bytes)
    ensures Take(x + rest, |x|) == Ok(Read(x, rest))
  {
    assert (x + rest)[..|x|] == x && (x + rest)[|x|..] == rest;
  }

  lemma NumBack(n: nat, k: nat, rest: Bytes)
    requires n < Pow256(k)
    ensures TakeNum(Le(n, k) + rest, k) == Ok(Read(n, rest))
  {
    TakeBack(Le(n, k), rest);
    FromLeLe(n, k);
  }

  lemma BlobBack(b: Bytes, rest: Bytes)
    requires |b| <= MAX_FRAME
    ensures TakeBlob((Le(|b|, 4) + b) + rest) == Ok(Read(b, rest))
  {
    hide Le, FromLe, Pow256, TakeNum, Take;
    Widths();
    NumBack(|b|, 4, b + rest);
    TakeBack(b, rest);
    assert (Le(|b|, 4) + b) + rest == Le(|b|, 4) + (b + rest);
  }

  lemma FieldBack(t: Field, v: Value, rest: Bytes)
    requires Fits(t, v)
    ensures DecodeField(t, EncodeField(t, v) + rest) == Ok(Read(v, rest))
  {
    hide Le, FromLe, Finite, Utf8, Pow256, TakeNum, TakeBlob;
    if v.Data? {
      BlobBack(v.b, rest);
    } else {
      Widths();
      NumBack(if t.I32? then Unsigned(v.n) else v.n, Width(t), rest);
    }
  }

  lemma TakeNumSplits(d: Bytes, k: nat)
    requires TakeNum(d, k).Ok?
    ensures var r := TakeNum(d, k).value; d == Le(r.value, k) + r.rest && r.value < Pow256(k)
  {
    LeFromLe(d[..k]);
    FromLeBound(d[..k]);
    assert d == d[..k] + d[k..];
  }

  lemma TakeBlobSplits(d: Bytes)
    requires TakeBlob(d).Ok?
    ensures var r := TakeBlob(d).value; d == (Le(|r.value|, 4) + r.value) + r.rest && |r.value| <= MAX_FRAME
  {
    TakeNumSplits(d, 4);
    hide Le, TakeNum;
    var n := TakeNum(d, 4).value;
    assert n.rest == n.rest[..n.value] + n.rest[n.value..];
    assert Le(n.value, 4) + (n.rest[..n.value] + n.rest[n.value..]) == (Le(n.value, 4) + n.rest[..n.value])
           + n.rest[n.value..];
  }

  /** A field that is accepted is exactly the encoding of a fitting value. */
  lemma FieldSplits(t: Field, d: Bytes)
    requires DecodeField(t, d).Ok?
    ensures var r := DecodeField(t, d).value; Fits(t, r.value) && d == EncodeField(t, r.value) + r.rest
  {
    hide Le, FromLe, Finite, Utf8, Pow256, TakeNum, TakeBlob;
    if t.Blob? || t.Text? {
      TakeBlobSplits(d);
    } else {
      Widths();
      TakeNumSplits(d, Width(t));
    }
  }

  lemma {:induction false} FieldsBack(ts: seq<Field>, vs: seq<Value>, rest: Bytes)
    requires AllFit(ts, vs)
    ensures AllTyped(ts, vs) && DecodeFields(ts, EncodeFields(ts, vs) + rest) == Ok(Read(vs, rest))
    decreases |ts|
  {
    hide Fits, Typed, EncodeField, DecodeField;
    FitTyped(ts, vs);
    if ts == [] {
      assert [] + rest == rest;
    } else {
      var k := |ts| - 1;
      var first, last := EncodeFields(ts[..k], vs[..k]), EncodeField(ts[k], vs[k]);
      FieldsBack(ts[..k], vs[..k], last + rest);
      FieldBack(ts[k], vs[k], rest);
      assert (first + last) + rest == first + (last + rest);
      assert vs[..k] + [vs[k]] == vs;
    }
  }

  lemma FitTyped(ts: seq<Field>, vs: seq<Value>)
    requires AllFit(ts, vs)
    ensures AllTyped(ts, vs)
  {
  }

  lemma {:induction false} FieldsSplit(ts: seq<Field>, d: Bytes)
    requires DecodeFields(ts, d).Ok?
    ensures var r := DecodeFields(ts, d).value;
            AllFit(ts, r.value) && AllTyped(ts, r.value) && d == EncodeFields(ts, r.value) + r.rest
    decreases |ts|
  {
    if ts == [] {
      assert [] + d == d;
    } else {
      var k := |ts| - 1;
      FieldsSplit(ts[..k], d);
      var r := DecodeFields(ts[..k], d).value;
      FieldSplits(ts[k], r.rest);
      var f := DecodeField(ts[k], r.rest).value;
      hide Fits, Typed, EncodeField, DecodeField;
      OneMoreFits(ts, r.value, f.value);
      var first, last := EncodeFields(ts[..k], r.value), EncodeField(ts[k], f.value);
      assert first + (last + f.rest) == (first + last) + f.rest;
    }
  }

  lemma OneMoreFits(ts: seq<Field>, vs: seq<Value>, v: Value)
    requires ts != [] && AllFit(ts[..|ts| - 1], vs) && Fits(ts[|ts| - 1], v)
    ensures var all := vs + [v];
            AllFit(ts, all) && AllTyped(ts, all) && all[..|ts| - 1] == vs && all[|ts| - 1] == v
  {
    hide Fits, Typed;
    var all, k := vs + [v], |ts| - 1;
    forall i | 0 <= i < |ts|
      ensures Fits(ts[i], all[i])
    {
      if i < k {
        assert ts[..k][i] == ts[i];
      }
    }
    FitTyped(ts, all);
  }

  /**
   The codec as a bijection: a body is read as these values exactly when they fit their fields and
   the body is their encoding. So what fits is read back, and what is accepted is written back.
   */
  lemma CodecBijection(ts: seq<Field>, d: Bytes, vs: seq<Value>)
    ensures DecodeBody(ts, d) == Ok(vs) <==> AllFit(ts, vs) && AllTyped(ts, vs) && d == EncodeFields(ts, vs)
  {
    hide DecodeFields, EncodeFields;
    if DecodeBody(ts, d) == Ok(vs) {
      FieldsSplit(ts, d);
      assert EncodeFields(ts, vs) + [] == EncodeFields(ts, vs);
    }
    if AllFit(ts, vs) && AllTyped(ts, vs) && d == EncodeFields(ts, vs) {
      FieldsBack(ts, vs, []);
      assert d + [] == d;
    }
  }

  /** Values of the right types survive the wire exactly when they also keep the reader's limits. */
  lemma WrittenThenRead(ts: seq<Field>, vs: seq<Value>)
    requires AllTyped(ts, vs)
    ensures DecodeBody(ts, EncodeFields(ts, vs)) == Ok(vs) <==>
            forall i | 0 <= i < |ts| ::
              && (ts[i].F32? ==> Finite(vs[i].n))
              && (ts[i].Blob? ==> |vs[i].b| <= MAX_FRAME)
              && (ts[i].Text? ==> |vs[i].b| <= MAX_TEXT)
  {
    CodecBijection(ts, EncodeFields(ts, vs), vs);
    hide Typed, Finite, DecodeBody, EncodeFields;
  }

  // The writer and the reader

  class Writer {
    var data: Bytes

    constructor (start: Bytes)
      ensures data == start
    {
      data := start;
    }

    method Integer(n: nat, k: nat)
      modifies this
      ensures data == old(data) + Le(n, k)
    {
      var rest := n;
      ghost var goal := data + Le(n, k);
      for i := 0 to k
        invariant data + Le(rest, k - i) == goal
      {
        data := data + [rest % 256];
        rest := rest / 256;
      }
    }

    method Blob(b: Bytes)
      modifies this
      ensures data == old(data) + (Le(|b|, 4) + b)
    {
      Integer(|b|, 4);
      data := data + b;
    }

    method Put(t: Field, v: Value)
      requires Typed(t, v)
      modifies this
      ensures data == old(data) + EncodeField(t, v)
    {
      if v.Data? {
        Blob(v.b);
      } else {
        Integer(if t.I32? then Unsigned(v.n) else v.n, Width(t));
      }
    }

    method Message(ts: seq<Field>, vs: seq<Value>)
      requires AllTyped(ts, vs)
      modifies this
      ensures data == old(data) + EncodeFields(ts, vs)
    {
      hide EncodeField;
      for i := 0 to |ts|
        invariant data == old(data) + EncodeFields(ts[..i], vs[..i])
      {
        assert ts[..i + 1][..i] == ts[..i] && vs[..i + 1][..i] == vs[..i];
        Put(ts[i], vs[i]);
      }
      assert ts[..|ts|] == ts && vs[..|vs|] == vs;
    }
  }

  class Reader {
    const data: Bytes
    var pos: nat

    ghost predicate Valid()
      reads this
    {
      pos <= |data|
    }

    /** What is still to be read. */
    ghost function Rest(): Bytes
      reads this
      requires Valid()
    {
      data[pos..]
    }

    constructor (d: Bytes)
      ensures Valid() && data == d && pos == 0
    {
      data, pos := d, 0;
    }

    method TakeBytes(n: nat) returns (r: Result<Bytes, WireError>)
      requires Valid()
      modifies this
      ensures Valid()
      ensures r.Err? ==> Take(old(Rest()), n) == Err(r.error)
      ensures r.Ok? ==> Take(old(Rest()), n) == Ok(Read(r.value, Rest()))
    {
      if n > |data| - pos {
        return Err(Truncated);
      }
      r := Ok(data[pos..pos + n]);
      assert data[pos..][..n] == data[pos..pos + n] && data[pos..][n..] == data[pos + n..];
      pos := pos + n;
    }

    method Integer(k: nat) returns (r: Result<nat, WireError>)
      requires Valid()
      modifies this
      ensures Valid()
      ensures r.Err? ==> TakeNum(old(Rest()), k) == Err(r.error)
      ensures r.Ok? ==> TakeNum(old(Rest()), k) == Ok(Read(r.value, Rest())) && r.value < Pow256(k)
    {
      var b :- TakeBytes(k);
      FromLeBound(b);
      return Ok(FromLe(b));
    }

    method Blob() returns (r: Result<Bytes, WireError>)
      requires Valid()
      modifies this
      ensures Valid()
      ensures r.Err? ==> TakeBlob(old(Rest())) == Err(r.error)
      ensures r.Ok? ==> TakeBlob(old(Rest())) == Ok(Read(r.value, Rest()))
    {
      var n :- Integer(4);
      if n > MAX_FRAME {
        return Err(TooLarge);
      }
      r := TakeBytes(n);
    }

    method Get(t: Field) returns (r: Result<Value, WireError>)
      requires Valid()
      modifies this
      ensures Valid()
      ensures r.Err? ==> DecodeField(t, old(Rest())) == Err(r.error)
      ensures r.Ok? ==> DecodeField(t, old(Rest())) == Ok(Read(r.value, Rest()))
    {
      if t.Blob? || t.Text? {
        var b :- Blob();
        if t.Text? && |b| > MAX_TEXT {
          return Err(TooLong);
        }
        if t.Text? && !Utf8(b) {
          return Err(NotUtf8);
        }
        return Ok(Data(b));
      }
      var n :- Integer(Width(t));
      if t.F32? && !Finite(n) {
        return Err(NotFinite);
      }
      return Ok(Num(if t.I32? then Signed(n) else n));
    }

    /** Reads a whole message body. */
    method Message(ts: seq<Field>) returns (r: Result<seq<Value>, WireError>)
      requires Valid() && pos == 0
      modifies this
      ensures r == DecodeBody(ts, data)
    {
      hide DecodeField, DecodeFields;
      var vs: seq<Value> := [];
      FieldsStart(ts, data);
      for i := 0 to |ts|
        invariant Valid()
        invariant DecodeFields(ts[..i], data) == Ok(Read(vs, Rest()))
      {
        var f := Get(ts[i]);
        FieldsTurn(ts, i, data);
        if f.Err? {
          FieldsFail(ts, i + 1, data);
          return Err(f.error);
        }
        vs := vs + [f.value];
      }
      assert ts[..|ts|] == ts;
      if pos != |data| {
        return Err(Trailing);
      }
      return Ok(vs);
    }
  }

  lemma FieldsStart(ts: seq<Field>, d: Bytes)
    ensures DecodeFields(ts[..0], d) == Ok(Read([], d)) && d[0..] == d
  {
  }

  lemma FieldsTurn(ts: seq<Field>, i: nat, d: Bytes)
    requires i < |ts| && DecodeFields(ts[..i], d).Ok?
    ensures var r := DecodeFields(ts[..i], d).value;
            var f := DecodeField(ts[i], r.rest);
            DecodeFields(ts[..i + 1], d) ==
            if f.Err? then Err(f.error) else Ok(Read(r.value + [f.value.value], f.value.rest))
  {
    assert ts[..i + 1][..i] == ts[..i];
  }

  /** Once a field is refused the message is, with the same error. */
  lemma {:induction false} FieldsFail(ts: seq<Field>, i: nat, d: Bytes)
    requires i <= |ts| && DecodeFields(ts[..i], d).Err?
    ensures DecodeFields(ts, d) == DecodeFields(ts[..i], d)
    decreases |ts|
  {
    if i == |ts| {
      assert ts[..i] == ts;
    } else {
      var k := |ts| - 1;
      assert ts[..k][..i] == ts[..i];
      FieldsFail(ts[..k], i, d);
    }
  }
}
