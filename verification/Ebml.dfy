/** A reader of EBML elements: RFC 8794, sections 4 (variable-size integers), 5 and 6. */
module Ebml {
  import opened Bytes
  import opened Io

  /** Big-endian, of any length. */
  function BeNat(s: seq<Byte>): (n: nat) {
    if s == [] then 0 else 256 * BeNat(s[..|s| - 1]) + s[|s| - 1]
  }

  /** The last `k` bytes of a number. */
  function BeBytes(n: nat, k: nat): (s: seq<Byte>)
    ensures |s| == k
  {
    if k == 0 then [] else BeBytes(n / 256, k - 1) + [n % 256]
  }

  function Power256(k: nat): (p: nat)
    ensures p > 0
  {
    if k == 0 then 1 else 256 * Power256(k - 1)
  }

  lemma {:induction false} BeRoundTrip(n: nat, k: nat)
    requires n < Power256(k)
    ensures BeNat(BeBytes(n, k)) == n
  {
    if k > 0 {
      BeRoundTrip(n / 256, k - 1);
      assert BeBytes(n, k)[..k - 1] == BeBytes(n / 256, k - 1);
    }
  }

  lemma OneByte(a: Byte)
    ensures BeNat([a]) == a
  {
    assert [a][..0] == [];
  }

  lemma TwoBytes(a: Byte, b: Byte)
    ensures BeNat([a, b]) == 0x100 * a + b
  {
    OneByte(a);
    assert [a, b][..1] == [a];
  }

  lemma ThreeBytes(a: Byte, b: Byte, c: Byte)
    ensures BeNat([a, b, c]) == 0x1_0000 * a + 0x100 * b + c
  {
    TwoBytes(a, b);
    assert [a, b, c][..2] == [a, b];
  }

  lemma FourBytes(a: Byte, b: Byte, c: Byte, d: Byte)
    ensures BeNat([a, b, c, d]) == 0x100_0000 * a + 0x1_0000 * b + 0x100 * c + d
  {
    ThreeBytes(a, b, c);
    assert [a, b, c, d][..3] == [a, b, c];
  }

  /** The width announced by the leading zero bits of the first byte; more than eight is not a width. */
  function Width(b: Byte): (w: nat)
    ensures 1 <= w <= 9
  {
    if b >= 128 then 1
    else if b >= 64 then 2
    else if b >= 32 then 3
    else if b >= 16 then 4
    else if b >= 8 then 5
    else if b >= 4 then 6
    else if b >= 2 then 7
    else if b >= 1 then 8
    else 9
  }

  /** The marker bit in the first byte. */
  function Lead(w: nat): (m: Byte)
    requires 1 <= w <= 8
  {
    [128, 64, 32, 16, 8, 4, 2, 1][w - 1]
  }

  /** The largest data of a width, all ones: reserved for an unknown size. */
  function AllOnes(w: nat): (n: int)
    requires 1 <= w <= 8
  {
    [0x7F, 0x3FFF, 0x1F_FFFF, 0x0FFF_FFFF, 0x07_FFFF_FFFF, 0x03FF_FFFF_FFFF, 0x01_FFFF_FFFF_FFFF,
     0xFF_FFFF_FFFF_FFFF][w - 1]
  }

  /** An element identifier keeps its marker. */
  function IdAt(s: seq<Byte>, p: nat): (r: Result<Taken<nat>>)
    requires p <= |s|
    ensures r.Ok? ==> p < r.value.next <= |s|
  {
    var b :- U8At(s, p);
    var w := Width(b);
    if w > 4 then Err(Other)
    else
      var next :- SkipAt(s, p, w);
      Ok(Taken(BeNat(s[p..next]), next))
  }

  /** A size; none when it is unknown. */
  function SizeAt(s: seq<Byte>, p: nat): (r: Result<Taken<Option<nat>>>)
    requires p <= |s|
    ensures r.Ok? ==> p < r.value.next <= |s|
  {
    var b :- U8At(s, p);
    var w := Width(b);
    if w > 8 then Err(Other)
    else
      var next :- SkipAt(s, p, w);
      var n := BeNat([b - Lead(w)] + s[p + 1..next]);
      Ok(Taken(if n == AllOnes(w) then None else Some(n), next))
  }

  datatype Element = Element(id: nat, data: seq<Byte>)

  /** An element of known size. */
  function ElementAt(s: seq<Byte>, p: nat): (r: Result<Taken<Element>>)
    requires p <= |s|
    ensures r.Ok? ==> p < r.value.next <= |s|
  {
    var id :- IdAt(s, p);
    var size :- SizeAt(s, id.next);
    if size.value.None? then Err(Other)
    else
      var end :- SkipAt(s, size.next, size.value.value);
      Ok(Taken(Element(id.value, s[size.next..end]), end))
  }

  /** A whole byte string as a list of elements. */
  function Elements(s: seq<Byte>): (r: Result<seq<Element>>)
    decreases |s|
  {
    if s == [] then Ok([])
    else
      var first :- ElementAt(s, 0);
      var rest :- Elements(s[first.next..]);
      Ok([first.value] + rest)
  }

  /** The bytes of an element: identifier, size and data. */
  ghost predicate Written(e: seq<Byte>, id: seq<Byte>, size: seq<Byte>, data: seq<Byte>) {
    && e == id + size + data
    && id != [] && Width(id[0]) == |id| <= 4
    && size != [] && Width(size[0]) == |size| <= 8
    && BeNat([size[0] - Lead(|size|)] + size[1..]) == |data| != AllOnes(|size|)
  }

  lemma WrittenAt(e: seq<Byte>, id: seq<Byte>, size: seq<Byte>, data: seq<Byte>, rest: seq<Byte>)
    requires Written(e, id, size, data)
    ensures ElementAt(e + rest, 0) == Ok(Taken(Element(BeNat(id), data), |e|))
  {
    hide BeNat, AllOnes, Lead;
    var s := e + rest;
    assert s[0..|e|] == e;
    AtSplit(s, 0, id + size, data);
    AtSplit(s, 0, id, size);
    assert s[|id| + 1..|id| + |size|] == s[|id|..|id| + |size|][1..];
    assert s[0] == s[0..|id|][0] && s[|id|] == s[|id|..|id| + |size|][0];
    assert IdAt(s, 0) == Ok(Taken(BeNat(id), |id|));
    assert SizeAt(s, |id|) == Ok(Taken(Some(|data|), |id| + |size|));
  }

  lemma WrittenFirst(e: seq<Byte>, id: seq<Byte>, size: seq<Byte>, data: seq<Byte>, rest: seq<Byte>)
    requires Written(e, id, size, data) && Elements(rest).Ok?
    ensures Elements(e + rest) == Ok([Element(BeNat(id), data)] + Elements(rest).value)
  {
    hide BeNat, Written, ElementAt;
    assert e != [] by { WrittenNonEmpty(e, id, size, data); }
    WrittenAt(e, id, size, data, rest);
    assert (e + rest)[|e|..] == rest;
  }

  lemma WrittenNonEmpty(e: seq<Byte>, id: seq<Byte>, size: seq<Byte>, data: seq<Byte>)
    requires Written(e, id, size, data)
    ensures e != []
  {
  }

  /** A size below 127 in one byte. */
  lemma ShortSize(n: nat)
    requires n < 127
    ensures var size := [0x80 + n]; Width(size[0]) == 1 && BeNat([size[0] - Lead(1)] + size[1..]) == n != AllOnes(1)
  {
    assert [n] + [] == [n];
    assert BeNat([n]) == n;
  }

  /** A size below 16383 in two bytes. */
  lemma LongSize(n: nat)
    requires n < 0x3FFF
    ensures var size := [0x40 + n / 256, n % 256];
            Width(size[0]) == 2 && BeNat([size[0] - Lead(2)] + size[1..]) == n != AllOnes(2)
  {
    var size := [0x40 + n / 256, n % 256];
    var d := [size[0] - Lead(2)] + size[1..];
    assert d == [n / 256, n % 256];
    assert d[..1] == [n / 256];
    assert BeNat([n / 256]) == n / 256;
  }
}
