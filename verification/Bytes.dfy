/** Bytes, network byte order and the error type shared by every parser of the proxy. */
module Bytes {

  type Byte = x: int | 0 <= x < 256

  type U16 = x: int | 0 <= x < 0x1_0000

  datatype Option<+T> = None | Some(value: T)

  /** `Incomplete` asks for more input; `Other` is final (its text is not modelled). */
  datatype Error = Incomplete | Other

  datatype Result<+T> = Ok(value: T) | Err(error: Error) {
    predicate IsFailure() { Err? }

    function PropagateFailure<U>(): Result<U>
      requires Err?
    {
      Err(error)
    }

    function Extract(): T
      requires Ok?
    {
      value
    }

    function Map<U>(f: T -> U): (r: Result<U>) {
      match this
      case Ok(v) => Ok(f(v))
      case Err(e) => Err(e)
    }
  }

  /** The outcome can no longer be changed by more input. */
  predicate Settled<T(==)>(r: Result<T>) { r != Err(Incomplete) }

  /** `e` occurs in `s` at offset `p`. */
  ghost predicate At(s: seq<Byte>, p: nat, e: seq<Byte>) {
    p + |e| <= |s| && s[p..p + |e|] == e
  }

  lemma AtSplit(s: seq<Byte>, p: nat, a: seq<Byte>, b: seq<Byte>)
    ensures At(s, p, a + b) <==> At(s, p, a) && At(s, p + |a|, b)
  {
    if At(s, p, a + b) {
      assert (a + b)[..|a|] == a && (a + b)[|a|..] == b;
      assert s[p..p + |a|] == s[p..p + |a + b|][..|a|];
      assert s[p + |a|..p + |a| + |b|] == s[p..p + |a + b|][|a|..];
    }
    if At(s, p, a) && At(s, p + |a|, b) {
      assert s[p..p + |a + b|] == s[p..p + |a|] + s[p + |a|..p + |a| + |b|];
    }
  }

  /** One byte, then the rest. */
  lemma AtFirst(s: seq<Byte>, p: nat, b: Byte, rest: seq<Byte>)
    ensures At(s, p, [b] + rest) <==> p < |s| && s[p] == b && At(s, p + 1, rest)
  {
    AtSplit(s, p, [b], rest);
  }

  lemma Single(s: seq<Byte>, p: nat)
    requires p < |s|
    ensures [s[p]] == s[p..p + 1]
  {
  }

  lemma Pair(s: seq<Byte>, p: nat)
    requires p + 2 <= |s|
    ensures [s[p], s[p + 1]] == s[p..p + 2]
  {
    assert s[p..p + 2][0] == s[p] && s[p..p + 2][1] == s[p + 1];
  }

  /** Adjacent slices join. */
  lemma Join(s: seq<Byte>, a: nat, b: nat, c: nat)
    requires a <= b <= c <= |s|
    ensures s[a..b] + s[b..c] == s[a..c]
  {
  }

  lemma AtBytes(s: seq<Byte>, p: nat, e: seq<Byte>)
    requires At(s, p, e)
    ensures forall i | 0 <= i < |e| :: s[p + i] == e[i]
  {
    forall i | 0 <= i < |e| ensures s[p + i] == e[i] {
      assert s[p + i] == s[p..p + |e|][i];
    }
  }

  function Be16(n: U16): (r: seq<Byte>)
    ensures |r| == 2
  {
    [n / 256, n % 256]
  }

  function U16Of(s: seq<Byte>, p: nat): (r: U16)
    requires p + 2 <= |s|
  {
    var high: int := s[p];
    256 * high + s[p + 1]
  }

  function U32Of(s: seq<Byte>, p: nat): (r: int)
    requires p + 4 <= |s|
    ensures 0 <= r < 0x1_0000_0000
  {
    0x1_0000 * U16Of(s, p) + U16Of(s, p + 2)
  }

  /** A two's complement reading of the same four bytes. */
  function I32Of(s: seq<Byte>, p: nat): (r: int)
    requires p + 4 <= |s|
    ensures -0x8000_0000 <= r < 0x8000_0000
  {
    var n := U32Of(s, p);
    if n < 0x8000_0000 then n else n - 0x1_0000_0000
  }

  function Be32(n: int): (r: seq<Byte>)
    requires 0 <= n < 0x1_0000_0000
    ensures |r| == 4
  {
    Be16(n / 0x1_0000) + Be16(n % 0x1_0000)
  }

  function BeI32(n: int): (r: seq<Byte>)
    requires -0x8000_0000 <= n < 0x8000_0000
    ensures |r| == 4
  {
    Be32(if n >= 0 then n else n + 0x1_0000_0000)
  }

  /** Network byte order and two's complement, by the weights of the bits. */
  lemma NetworkOrder(s: seq<Byte>, p: nat)
    requires p + 4 <= |s|
    ensures U16Of(s, p) == 0x100 * s[p] as int + s[p + 1] as int
    ensures U32Of(s, p) ==
            0x100_0000 * s[p] as int + 0x1_0000 * s[p + 1] as int + 0x100 * s[p + 2] as int + s[p + 3] as int
    ensures I32Of(s, p) == U32Of(s, p) - (if s[p] >= 0x80 then 0x1_0000_0000 else 0)
  {
  }

  lemma U16RoundTrip(s: seq<Byte>, p: nat)
    requires p + 2 <= |s|
    ensures Be16(U16Of(s, p)) == s[p..p + 2]
  {
  }

  lemma U32RoundTrip(s: seq<Byte>, p: nat)
    requires p + 4 <= |s|
    ensures Be32(U32Of(s, p)) == s[p..p + 4]
  {
    U16RoundTrip(s, p);
    U16RoundTrip(s, p + 2);
    assert s[p..p + 4] == s[p..p + 2] + s[p + 2..p + 4];
  }

  lemma I32RoundTrip(s: seq<Byte>, p: nat)
    requires p + 4 <= |s|
    ensures BeI32(I32Of(s, p)) == s[p..p + 4]
  {
    U32RoundTrip(s, p);
  }

  lemma ReadsBackU16(s: seq<Byte>, p: nat, n: U16)
    requires At(s, p, Be16(n))
    ensures U16Of(s, p) == n
  {
    AtBytes(s, p, Be16(n));
  }

  lemma ReadsBackU32(s: seq<Byte>, p: nat, n: int)
    requires 0 <= n < 0x1_0000_0000
    requires At(s, p, Be32(n))
    ensures U32Of(s, p) == n
  {
    AtBytes(s, p, Be32(n));
  }

  lemma ReadsBackI32(s: seq<Byte>, p: nat, n: int)
    requires -0x8000_0000 <= n < 0x8000_0000
    requires At(s, p, BeI32(n))
    ensures I32Of(s, p) == n
  {
    ReadsBackU32(s, p, if n >= 0 then n else n + 0x1_0000_0000);
  }

  /** The concatenation of a list of byte strings. */
  function Flatten(parts: seq<seq<Byte>>): (r: seq<Byte>) {
    if parts == [] then [] else parts[0] + Flatten(parts[1..])
  }

  lemma {:induction false} FlattenAppend(a: seq<seq<Byte>>, b: seq<seq<Byte>>)
    ensures Flatten(a + b) == Flatten(a) + Flatten(b)
  {
    if a == [] {
      assert a + b == b;
    } else {
      FlattenAppend(a[1..], b);
      assert (a + b)[1..] == a[1..] + b;
      assert a[0] + (Flatten(a[1..]) + Flatten(b)) == Flatten(a) + Flatten(b);
    }
  }

  lemma FlattenSnoc(a: seq<seq<Byte>>, x: seq<Byte>)
    ensures Flatten(a + [x]) == Flatten(a) + x
  {
    FlattenAppend(a, [x]);
    assert Flatten([x]) == x + Flatten([]);
  }
}
