/** Machine integers, results and the counting lemmas shared by the other modules. */
module Base {
  type u8 = x: int | 0 <= x < 0x100
  type u16 = x: int | 0 <= x < 0x1_0000
  type u32 = x: int | 0 <= x < 0x1_0000_0000
  type u64 = x: int | 0 <= x < 0x1_0000_0000_0000_0000

  type Bytes = seq<u8>

  const MAX_FRAME: nat := 2 * 1024 * 1024

  const U32: int := 0x1_0000_0000

  /** Unsigned 32-bit wrap-around. */
  function Wrap(x: int): u32 {
    x % U32
  }

  datatype Option<+T> = None | Some(value: T)

  datatype Result<+T, +E> = Ok(value: T) | Err(error: E) {
    predicate IsFailure() {
      Err?
    }

    function PropagateFailure<U>(): Result<U, E>
      requires Err?
    {
      Err(error)
    }

    function Extract(): T
      requires Ok?
    {
      value
    }
  }

  /** The sum of the values of a map. */
  ghost function Sum(m: map<int, nat>): nat
    decreases |m|
  {
    if m == map[] then 0
    else
      HasKey(m);
      var k :| k in m;
      m[k] + Sum(m - {k})
  }

  lemma HasKey<V>(m: map<int, V>)
    requires m != map[]
    ensures exists k :: k in m
  {
    HasMember(m.Keys);
  }

  lemma HasMember(s: set<int>)
    requires s != {}
    ensures exists x :: x in s
  {
    if forall x :: x !in s {
      EmptySet(s);
    }
  }

  lemma EmptySet(s: set<int>)
    requires forall x :: x !in s
    ensures s == {}
  {
    assert forall x | x in s :: x in {};
    assert s <= {};
  }

  lemma {:induction false} SumRemove(m: map<int, nat>, k: int)
    requires k in m
    ensures Sum(m) == m[k] + Sum(m - {k})
    decreases |m|
  {
    HasKey(m);
    var c :| c in m && Sum(m) == m[c] + Sum(m - {c});
    if c != k {
      SumRemove(m - {c}, k);
      SumRemove(m - {k}, c);
      assert m - {c} - {k} == m - {k} - {c};
    }
  }

  lemma SumAdd(m: map<int, nat>, k: int, v: nat)
    requires k !in m
    ensures Sum(m[k := v]) == Sum(m) + v
  {
    SumRemove(m[k := v], k);
    assert m[k := v] - {k} == m;
  }

  /** A set of naturals below `n` has at most `n` members, and all of them when it has `n`. */
  lemma {:induction false} Pigeonhole(s: set<int>, n: nat)
    requires forall x | x in s :: 0 <= x < n
    ensures |s| <= n
    ensures |s| == n ==> forall x | 0 <= x < n :: x in s
  {
    if n > 0 {
      Pigeonhole(s - {n - 1}, n - 1);
    } else if s != {} {
      HasMember(s);
    }
  }

  /** The smallest member of a nonempty set. */
  function Min(s: set<int>): (m: int)
    requires s != {}
    ensures m in s && forall x | x in s :: m <= x
  {
    MinExists(s);
    var m :| m in s && forall x | x in s :: m <= x;
    m
  }

  lemma {:induction false} MinExists(s: set<int>)
    requires s != {}
    ensures exists m :: m in s && forall x | x in s :: m <= x
  {
    HasMember(s);
    var a :| a in s;
    assert forall x | x in s :: x == a || x in s - {a};
    if s - {a} != {} {
      MinExists(s - {a});
      var b :| b in s - {a} && forall x | x in s - {a} :: b <= x;
      assert a <= b ==> forall x | x in s :: a <= x;
    } else {
      assert forall x | x in s :: a <= x;
    }
  }

  /** The members of a set in increasing order. */
  function Sorted(s: set<int>): (r: seq<int>)
    ensures |r| == |s|
    ensures forall x :: x in r <==> x in s
    ensures forall i, j | 0 <= i < j < |r| :: r[i] < r[j]
  {
    if s == {} then []
    else
      var m := Min(s);
      [m] + Sorted(s - {m})
  }
}
