/** src/messages/io.rs: the reading primitives over a cursor, and what each one reads. */
module Io {
  import opened Bytes

  /** 4 MiB: longer declared payloads are refused. */
  const MAX_MESSAGE_LENGTH := 4 * 1024 * 1024

  function CheckMessageLength(length: nat): (r: Result<()>) {
    if length > MAX_MESSAGE_LENGTH then Err(Other) else Ok(())
  }

  /** A value read from a buffer, and the offset that follows it. */
  datatype Taken<+T> = Taken(value: T, next: nat)

  function U8At(s: seq<Byte>, p: nat): (r: Result<Byte>)
    requires p <= |s|
  {
    if p < |s| then Ok(s[p]) else Err(Incomplete)
  }

  function U16At(s: seq<Byte>, p: nat): (r: Result<U16>)
    requires p <= |s|
  {
    if p + 2 <= |s| then Ok(U16Of(s, p)) else Err(Incomplete)
  }

  function U32At(s: seq<Byte>, p: nat): (r: Result<nat>)
    requires p <= |s|
  {
    if p + 4 <= |s| then Ok(U32Of(s, p)) else Err(Incomplete)
  }

  function I32At(s: seq<Byte>, p: nat): (r: Result<int>)
    requires p <= |s|
  {
    if p + 4 <= |s| then Ok(I32Of(s, p)) else Err(Incomplete)
  }

  function SkipAt(s: seq<Byte>, p: nat, n: nat): (r: Result<nat>)
    requires p <= |s|
  {
    if p + n <= |s| then Ok(p + n) else Err(Incomplete)
  }

  /** One, two or three bytes, least significant seven bits first; the third counts in full. */
  function CompactAt(s: seq<Byte>, p: nat): (r: Result<Taken<nat>>)
    requires p <= |s|
    ensures r.Ok? ==> p < r.value.next <= |s| && r.value.next <= p + 3 && r.value.value < 0x40_0000
  {
    var a :- U8At(s, p);
    if a < 128 then Ok(Taken(a, p + 1))
    else
      var b :- U8At(s, p + 1);
      if b < 128 then Ok(Taken(a % 128 + 128 * b, p + 2))
      else
        var c :- U8At(s, p + 2);
        Ok(Taken(a % 128 + 128 * (b % 128) + 0x4000 * c, p + 3))
  }

  /** The byte string of a compact length: every form the reader takes, canonical or not. */
  datatype Compact =
    | One(a: Byte)
    | Two(a: Byte, b: Byte)
    | Three(a: Byte, b: Byte, c: Byte)
  {
    predicate Valid() { a < 128 && (!One? ==> b < 128) }

    function Value(): (n: nat) {
      match this
      case One(a) => a
      case Two(a, b) => a + 128 * b
      case Three(a, b, c) => a + 128 * b + 0x4000 * c
    }

    function Encode(): (e: seq<Byte>)
      requires Valid()
    {
      match this
      case One(a) => [a]
      case Two(a, b) => [a + 128, b]
      case Three(a, b, c) => [a + 128, b + 128, c]
    }
  }

  /** The shortest form of a length. */
  function CanonicalCompact(n: nat): (c: Compact)
    requires n < 0x40_0000
    ensures c.Valid() && c.Value() == n
  {
    if n < 128 then One(n)
    else if n < 0x4000 then Two(n % 128, n / 128)
    else Three(n % 128, n / 128 % 128, n / 0x4000)
  }

  lemma CompactReadsBack(c: Compact, s: seq<Byte>, p: nat)
    requires c.Valid() && At(s, p, c.Encode())
    ensures CompactAt(s, p) == Ok(Taken(c.Value(), p + |c.Encode()|))
  {
    hide At, CompactAt;
    match c
    case One(a) =>
      assert [a] == [a] + [];
      AtFirst(s, p, a, []);
      ReadsOne(s, p, a);
    case Two(a, b) =>
      assert [a + 128, b] == [a + 128] + ([b] + []);
      AtFirst(s, p, a + 128, [b] + []);
      AtFirst(s, p + 1, b, []);
      ReadsTwo(s, p, a, b);
    case Three(a, b, c) =>
      assert [a + 128, b + 128, c] == [a + 128] + ([b + 128] + ([c] + []));
      AtFirst(s, p, a + 128, [b + 128] + ([c] + []));
      AtFirst(s, p + 1, b + 128, [c] + []);
      AtFirst(s, p + 2, c, []);
      ReadsThree(s, p, a, b, c);
  }

  lemma ReadsOne(s: seq<Byte>, p: nat, a: Byte)
    requires p < |s| && a < 128 && s[p] == a
    ensures CompactAt(s, p) == Ok(Taken(a, p + 1))
  {
  }

  lemma ReadsTwo(s: seq<Byte>, p: nat, a: Byte, b: Byte)
    requires p + 1 < |s| && a < 128 && b < 128 && s[p] == a + 128 && s[p + 1] == b
    ensures CompactAt(s, p) == Ok(Taken(a + 128 * b, p + 2))
  {
  }

  lemma ReadsThree(s: seq<Byte>, p: nat, a: Byte, b: Byte, c: Byte)
    requires p + 2 < |s| && a < 128 && b < 128 && s[p] == a + 128 && s[p + 1] == b + 128 && s[p + 2] == c
    ensures CompactAt(s, p) == Ok(Taken(a + 128 * b + 0x4000 * c, p + 3))
  {
  }

  /** Every successful read is the reading of some form of the length. */
  lemma CompactExplained(s: seq<Byte>, p: nat) returns (c: Compact)
    requires p <= |s| && CompactAt(s, p).Ok?
    ensures c.Valid() && c.Value() == CompactAt(s, p).value.value
    ensures c.Encode() == s[p..CompactAt(s, p).value.next]
  {
    if s[p] < 128 {
      c := One(s[p]);
    } else if s[p + 1] < 128 {
      c := Two(s[p] - 128, s[p + 1]);
    } else {
      c := Three(s[p] - 128, s[p + 1] - 128, s[p + 2]);
    }
  }

  /** The canonical form inverts the reader on every length it can produce. */
  lemma CanonicalCompactRoundTrip(n: nat, rest: seq<Byte>)
    requires n < 0x40_0000
    ensures var e := CanonicalCompact(n).Encode(); CompactAt(e + rest, 0) == Ok(Taken(n, |e|))
  {
    CompactReadsBack(CanonicalCompact(n), CanonicalCompact(n).Encode() + rest, 0);
  }

  /** 10000 in two bytes, and a length in three. */
  lemma CompactExample()
    ensures CompactAt([0x90, 0x4E], 0) == Ok(Taken(10000, 2))
    ensures CompactAt([0x81, 0x82, 0x03], 0) == Ok(Taken(0x1 + 0x2 * 0x80 + 0x3 * 0x4000, 3))
  {
  }

  /** The source joins the three groups with `|`; on these disjoint bits that is a sum. */
  lemma CompactBits(a: bv32, b: bv32, c: bv32)
    requires a < 128 && b < 128 && c < 256
    ensures (a | (b << 7) | (c << 14)) == a + (b << 7) + (c << 14)
  {
  }

  /**
   The extent of a cut-text message, the same code in both directions. A negative length announces
   an extended message, whose four flag bytes are read before its end is looked for.
   */
  function CutTextEnd(s: seq<Byte>): (r: Result<nat>)
    ensures r.Ok? ==> 8 <= r.value <= |s|
  {
    if |s| < 8 then Err(Incomplete)
    else
      var length := I32Of(s, 4);
      if length >= 0 then
        var _ :- CheckMessageLength(length);
        SkipAt(s, 8, length)
      else
        var _ :- CheckMessageLength(-length);
        if |s| < 12 then Err(Incomplete) else SkipAt(s, 8, -length)
  }

  /** The extent of a fence, the same in both directions. */
  function FenceEnd(s: seq<Byte>): (r: Result<nat>)
    ensures r.Ok? ==> 9 <= r.value <= |s|
  {
    if |s| < 9 then Err(Incomplete) else SkipAt(s, 9, s[8])
  }

  /** An extended cut text of one to three bytes: shorter than the part the parser insists on seeing. */
  ghost predicate ShortExtended(payload: seq<Byte>) {
    |payload| >= 8 && -3 <= I32Of(payload, 4) < 0
  }

  /** `std::io::Cursor<&[u8]>`: a byte slice and a position in it. */
  class Cursor {
    const data: seq<Byte>
    var pos: nat

    constructor (data: seq<Byte>)
      ensures this.data == data && pos == 0 && Valid()
    {
      this.data := data;
      pos := 0;
    }

    ghost predicate Valid()
      reads this
    {
      pos <= |data|
    }

    method PeekU8() returns (r: Result<Byte>)
      requires Valid()
      ensures r == U8At(data, pos)
    {
      if pos == |data| { return Err(Incomplete); }
      return Ok(data[pos]);
    }

    method GetU8() returns (r: Result<Byte>)
      requires Valid()
      modifies this
      ensures Valid() && r == U8At(data, old(pos))
      ensures r.Ok? ==> pos == old(pos) + 1
    {
      if pos == |data| { return Err(Incomplete); }
      r := Ok(data[pos]);
      pos := pos + 1;
    }

    method GetU16() returns (r: Result<U16>)
      requires Valid()
      modifies this
      ensures Valid() && r == U16At(data, old(pos))
      ensures r.Ok? ==> pos == old(pos) + 2
    {
      if |data| - pos < 2 { return Err(Incomplete); }
      r := Ok(U16Of(data, pos));
      pos := pos + 2;
    }

    method GetU32() returns (r: Result<nat>)
      requires Valid()
      modifies this
      ensures Valid() && r == U32At(data, old(pos))
      ensures r.Ok? ==> pos == old(pos) + 4
    {
      if |data| - pos < 4 { return Err(Incomplete); }
      r := Ok(U32Of(data, pos));
      pos := pos + 4;
    }

    method GetI32() returns (r: Result<int>)
      requires Valid()
      modifies this
      ensures Valid() && r == I32At(data, old(pos))
      ensures r.Ok? ==> pos == old(pos) + 4
    {
      if |data| - pos < 4 { return Err(Incomplete); }
      r := Ok(I32Of(data, pos));
      pos := pos + 4;
    }

    method GetCompact() returns (r: Result<nat>)
      requires Valid()
      modifies this
      ensures Valid()
      ensures CompactAt(data, old(pos)) == if r.Ok? then Ok(Taken(r.value, pos)) else Err(r.error)
    {
      var l: nat :- GetU8();
      var len: nat := l % 128;
      if l / 128 != 0 {
        l :- GetU8();
        len := len + (l % 128) * 128;
        if l / 128 != 0 {
          l :- GetU8();
          len := len + l * 0x4000;
        }
      }
      return Ok(len);
    }

    method Skip(n: nat) returns (r: Result<()>)
      requires Valid()
      modifies this
      ensures Valid()
      ensures r == if old(pos) + n <= |data| then Ok(()) else Err(Incomplete)
      ensures r.Ok? ==> pos == old(pos) + n
    {
      if |data| - pos < n { return Err(Incomplete); }
      pos := pos + n;
      return Ok(());
    }

    method Read(n: nat) returns (r: Result<seq<Byte>>)
      requires Valid()
      modifies this
      ensures Valid()
      ensures r == if old(pos) + n <= |data| then Ok(data[old(pos)..old(pos) + n]) else Err(Incomplete)
      ensures r.Ok? ==> pos == old(pos) + n
    {
      if |data| - pos < n { return Err(Incomplete); }
      r := Ok(data[pos..pos + n]);
      pos := pos + n;
    }

    method Peek(n: nat) returns (r: Result<seq<Byte>>)
      requires Valid()
      ensures r == if pos + n <= |data| then Ok(data[pos..pos + n]) else Err(Incomplete)
    {
      if |data| - pos < n { return Err(Incomplete); }
      return Ok(data[pos..pos + n]);
    }

    method SetPosition(p: nat)
      requires p <= |data|
      modifies this
      ensures pos == p
    {
      pos := p;
    }
  }

  /** The cut-text branch of both parsers. */
  method ParseCutText(src: Cursor) returns (r: Result<seq<Byte>>)
    requires src.Valid() && src.pos == 0
    modifies src
    ensures src.Valid()
    ensures r == if CutTextEnd(src.data).Ok? then Ok(src.data[..CutTextEnd(src.data).value])
                 else Err(CutTextEnd(src.data).error)
  {
    var _ :- src.Skip(4);
    var length :- src.GetI32();
    if length >= 0 {
      var _ :- CheckMessageLength(length);
      var len := src.pos;
      src.SetPosition(0);
      r := src.Read(len + length);
      return;
    }
    var _ :- CheckMessageLength(-length);
    var _ :- src.GetU32();
    src.SetPosition(0);
    r := src.Read(8 + -length);
  }
}
