/** What more input, other input or another pixel format can do to the outcome of the server parser. */
module ServerStability {
  import opened Bytes
  import opened Io
  import opened ServerParser

  /** `s` and `t` carry the same first `k` bytes. */
  ghost predicate Agree(s: seq<Byte>, t: seq<Byte>, k: nat) {
    k <= |s| && k <= |t| && forall i | 0 <= i < k :: s[i] == t[i]
  }

  // An accepted extent depends on its own bytes only.

  lemma TightDataLocal(s: seq<Byte>, t: seq<Byte>, p: nat, size: nat)
    requires p <= |s| && TightDataAt(s, p, size).Ok? && Agree(s, t, TightDataAt(s, p, size).value)
    ensures TightDataAt(t, p, size) == TightDataAt(s, p, size)
  {
  }

  lemma FilteredLocal(s: seq<Byte>, t: seq<Byte>, p: nat, filter: Byte, w: nat, h: nat)
    requires p <= |s| && FilteredAt(s, p, filter, w, h).Ok? && Agree(s, t, FilteredAt(s, p, filter, w, h).value)
    ensures FilteredAt(t, p, filter, w, h) == FilteredAt(s, p, filter, w, h)
  {
    if filter == 0 {
      TightDataLocal(s, t, p, Pixels(w, h, 3));
    } else {
      var last: nat := s[p];
      TightDataLocal(s, t, p + 1 + 3 * (last + 1), PaletteSize(w, h, last + 1));
    }
  }

  lemma TightLocal(s: seq<Byte>, t: seq<Byte>, p: nat, w: nat, h: nat)
    requires p <= |s| && TightAt(s, p, w, h).Ok? && Agree(s, t, TightAt(s, p, w, h).value)
    ensures TightAt(t, p, w, h) == TightAt(s, p, w, h)
  {
    var ctl := s[p] / 16;
    if ctl != 8 && ctl != 9 {
      var filter := FilterAt(s, p + 1, ctl / 4 % 2 == 1).value;
      FilteredLocal(s, t, filter.next, filter.value, w, h);
    }
  }

  lemma BodyLocal(s: seq<Byte>, t: seq<Byte>, p: nat, encoding: int, w: nat, h: nat, bpp: nat)
    requires p <= |s| && BodyAt(s, p, encoding, w, h, bpp).Ok?
    requires Agree(s, t, BodyAt(s, p, encoding, w, h, bpp).value)
    ensures BodyAt(t, p, encoding, w, h, bpp) == BodyAt(s, p, encoding, w, h, bpp)
  {
    hide TightAt;
    if encoding == TIGHT { TightLocal(s, t, p, w, h); }
  }

  lemma RectLocal(s: seq<Byte>, t: seq<Byte>, p: nat, bpp: nat)
    requires p <= |s| && RectAt(s, p, bpp).Ok? && Agree(s, t, RectAt(s, p, bpp).value.at)
    ensures RectAt(t, p, bpp) == RectAt(s, p, bpp)
  {
    hide BodyAt;
    if I32Of(s, p + 8) != LAST_RECT {
      BodyLocal(s, t, p + 12, I32Of(s, p + 8), U16Of(s, p + 4), U16Of(s, p + 6), bpp);
    }
  }

  lemma {:induction false} RectsLocal(s: seq<Byte>, t: seq<Byte>, p: nat, n: nat, bpp: nat)
    requires p <= |s| && RectsEnd(s, p, n, bpp).Ok? && Agree(s, t, RectsEnd(s, p, n, bpp).value)
    ensures RectsEnd(t, p, n, bpp) == RectsEnd(s, p, n, bpp)
    decreases n
  {
    hide RectAt;
    if n > 0 {
      var a := RectAt(s, p, bpp).value;
      if a.Next? { RectsLocal(s, t, a.at, n - 1, bpp); }
      RectLocal(s, t, p, bpp);
    }
  }

  lemma UpdateLocal(s: seq<Byte>, t: seq<Byte>, bpp: nat)
    requires UpdateEnd(s, bpp).Ok? && Agree(s, t, UpdateEnd(s, bpp).value)
    ensures UpdateEnd(t, bpp) == UpdateEnd(s, bpp)
  {
    hide RectAt;
    RectsLocal(s, t, 4, U16Of(s, 2), bpp);
  }

  lemma CutTextLocal(s: seq<Byte>, t: seq<Byte>)
    requires CutTextEnd(s).Ok? && Agree(s, t, CutTextEnd(s).value)
    requires -3 <= I32Of(s, 4) < 0 ==> |t| >= 12
    ensures CutTextEnd(t) == CutTextEnd(s)
  {
    assert I32Of(t, 4) == I32Of(s, 4);
  }

  /** A message is accepted again in front of any bytes, if an extended cut text can show its flags. */
  lemma MessageLocal(s: seq<Byte>, t: seq<Byte>, bpp: nat)
    requires MessageEnd(s, bpp).Ok? && Agree(s, t, MessageEnd(s, bpp).value)
    requires s[0] == 3 && -3 <= I32Of(s, 4) < 0 ==> |t| >= 12
    ensures MessageEnd(t, bpp) == MessageEnd(s, bpp)
  {
    assert t[0] == s[0];
    if s[0] == 0 {
      UpdateLocal(s, t, bpp);
    } else if s[0] == 3 {
      CutTextLocal(s, t);
    }
  }

  // A hard error stays one.

  lemma TightErrorStable(s: seq<Byte>, t: seq<Byte>, p: nat, w: nat, h: nat)
    requires s <= t && p <= |s| && TightAt(s, p, w, h) == Err(Other)
    ensures TightAt(t, p, w, h) == Err(Other)
  {
    assert s[p] / 16 != 8 && s[p] / 16 != 9;
    var filter := FilterAt(s, p + 1, s[p] / 16 / 4 % 2 == 1).value;
    assert FilteredAt(s, filter.next, filter.value, w, h) == Err(Other);
    assert FilterAt(t, p + 1, s[p] / 16 / 4 % 2 == 1).value == filter;
  }

  lemma BodyErrorStable(s: seq<Byte>, t: seq<Byte>, p: nat, encoding: int, w: nat, h: nat, bpp: nat)
    requires s <= t && p <= |s| && BodyAt(s, p, encoding, w, h, bpp) == Err(Other)
    ensures BodyAt(t, p, encoding, w, h, bpp) == Err(Other)
  {
    hide TightAt;
    if encoding == TIGHT { TightErrorStable(s, t, p, w, h); }
  }

  lemma RectErrorStable(s: seq<Byte>, t: seq<Byte>, p: nat, bpp: nat)
    requires s <= t && p <= |s| && RectAt(s, p, bpp) == Err(Other)
    ensures RectAt(t, p, bpp) == Err(Other)
  {
    hide BodyAt;
    BodyErrorStable(s, t, p + 12, I32Of(s, p + 8), U16Of(s, p + 4), U16Of(s, p + 6), bpp);
  }

  lemma {:induction false} RectsErrorStable(s: seq<Byte>, t: seq<Byte>, p: nat, n: nat, bpp: nat)
    requires s <= t && p <= |s| && RectsEnd(s, p, n, bpp) == Err(Other)
    ensures RectsEnd(t, p, n, bpp) == Err(Other)
    decreases n
  {
    hide RectAt;
    var a := RectAt(s, p, bpp);
    if a.Err? {
      RectErrorStable(s, t, p, bpp);
    } else {
      RectLocal(s, t, p, bpp);
      RectsErrorStable(s, t, a.value.at, n - 1, bpp);
    }
  }

  lemma MessageErrorStable(s: seq<Byte>, t: seq<Byte>, bpp: nat)
    requires s <= t && MessageEnd(s, bpp) == Err(Other)
    ensures MessageEnd(t, bpp) == Err(Other)
  {
    hide RectAt;
    if s[0] == 0 { RectsErrorStable(s, t, 4, U16Of(s, 2), bpp); }
    if s[0] == 3 { assert I32Of(t, 4) == I32Of(s, 4); }
  }

  /** More input never changes a message or a hard error. */
  lemma ServerStable(s: seq<Byte>, t: seq<Byte>, bpp: nat)
    requires s <= t && Settled(ParseServer(s, bpp))
    ensures ParseServer(t, bpp) == ParseServer(s, bpp)
  {
    var end := MessageEnd(s, bpp);
    if end.Ok? {
      MessageLocal(s, t, bpp);
      assert t[..end.value] == s[..end.value];
    } else {
      assert end.error != Incomplete;
      MessageErrorStable(s, t, bpp);
    }
  }

  /** No strict prefix of an accepted message is a message, or an error: the parser waits for all of it. */
  lemma ServerPrefixIncomplete(s: seq<Byte>, k: nat, bpp: nat)
    requires ParseServer(s, bpp).Ok? && k < ParseServer(s, bpp).value.Len()
    ensures ParseServer(s[..k], bpp) == Err(Incomplete)
  {
    if Settled(ParseServer(s[..k], bpp)) {
      ServerStable(s[..k], s, bpp);
    }
  }

  /** A message parses back from its own bytes, except for an extended cut text of less than four bytes. */
  lemma ServerOwnBytes(s: seq<Byte>, bpp: nat)
    requires ParseServer(s, bpp).Ok?
    ensures var m := ParseServer(s, bpp).value;
            ParseServer(m.payload, bpp) == Ok(m) <==> !(m.ServerCutText? && ShortExtended(m.payload))
  {
    var end := MessageEnd(s, bpp).value;
    var own := s[..end];
    if s[0] == 3 { assert I32Of(own, 4) == I32Of(s, 4); }
    if !(s[0] == 3 && ShortExtended(own)) {
      MessageLocal(s, own, bpp);
      assert own[..end] == own;
    }
  }

  /** The exclusion is not empty: a twelve-byte buffer that holds a nine-byte extended cut text. */
  lemma ShortExtendedExample(bpp: nat)
    ensures var s := [3, 0, 0, 0, 255, 255, 255, 255, 7, 0, 0, 0];
            ParseServer(s, bpp) == Ok(ServerCutText(s[..9])) && ParseServer(s[..9], bpp) == Err(Incomplete)
  {
    var s := [3, 0, 0, 0, 255, 255, 255, 255, 7, 0, 0, 0];
    assert I32Of(s, 4) == -1;
    assert MessageEnd(s, bpp) == Ok(9);
    ServerOwnBytes(s, bpp);
    assert I32Of(s[..9], 4) == -1;
  }

  // Sizes, and why the parser cannot ask for more forever.

  // The largest pixel format is 255 bits per pixel: 31 whole bytes.

  lemma Product(a: nat, b: nat, x: nat, y: nat)
    requires a <= x && b <= y
    ensures a * b <= x * y
  {
    assert x * y == a * b + (x - a) * b + x * (y - b);
  }

  lemma PixelsBound(w: nat, h: nat, each: nat)
    requires w < 0x1_0000 && h < 0x1_0000 && each <= 31
    ensures Pixels(w, h, each) <= 31 * 0xFFFE_0001
  {
    AreaBound(w, h);
    ScaledBound(w * h, each);
  }

  lemma AreaBound(w: nat, h: nat)
    requires w < 0x1_0000 && h < 0x1_0000
    ensures w * h <= 0xFFFE_0001
  {
    Product(w, h, 0xFFFF, 0xFFFF);
  }

  lemma ScaledBound(area: nat, each: nat)
    requires area <= 0xFFFE_0001 && each <= 31
    ensures area * each <= 31 * 0xFFFE_0001
  {
    Product(area, each, 0xFFFE_0001, 31);
  }

  lemma RowsBound(w: nat, h: nat)
    requires w <= 8 * 0xFFFF && h < 0x1_0000
    ensures Rows(w, h) <= 0xFFFE_0001
  {
    AreaBound(DivCeil8(w), h);
  }

  /** Every size computed from the geometry of a rectangle, those of uncompressed Tight data included. */
  lemma SizesBound(w: U16, h: U16, colors: nat, bpp: nat)
    requires colors <= 256 && bpp <= 31
    ensures 2 + 2 * Pixels(w, h, bpp) < 0x3F_0000_0000 && 2 + Pixels(w, h, 4) < 0x3F_0000_0000
    ensures Pixels(w, h, bpp) + Rows(w, h) < 0x3F_0000_0000
    ensures Pixels(w, h, 3) < 0x3F_0000_0000 && PaletteSize(w, h, colors) < 0x3F_0000_0000
  {
    hide Pixels, Rows;
    PixelsBound(w, h, bpp);
    PixelsBound(w, h, 3);
    PixelsBound(w, h, 4);
    RowsBound(w, h);
    RowsBound(w * (if colors <= 2 then 1 else 8), h);
  }

  lemma TightBound(s: seq<Byte>, p: nat, w: nat, h: nat)
    requires p <= |s|
    ensures TightAt(s, p, w, h) == Err(Incomplete) ==> |s| < p + 0x80_0000
    ensures TightAt(s, p, w, h).Ok? ==> TightAt(s, p, w, h).value < p + 0x80_0000
  {
    hide Pixels, PaletteSize;
  }

  lemma BodyBound(s: seq<Byte>, p: nat, encoding: int, w: U16, h: U16, bpp: nat)
    requires p <= |s| && bpp <= 31
    ensures BodyAt(s, p, encoding, w, h, bpp) == Err(Incomplete) ==> |s| < p + 0x3F_0000_0000
    ensures BodyAt(s, p, encoding, w, h, bpp).Ok? ==> BodyAt(s, p, encoding, w, h, bpp).value < p + 0x3F_0000_0000
  {
    hide TightAt, Pixels, Rows, PaletteSize;
    TightBound(s, p, w, h);
    SizesBound(w, h, 0, bpp);
  }

  /** No rectangle is 2^38 bytes long. */
  lemma RectBound(s: seq<Byte>, p: nat, bpp: nat)
    requires p <= |s| && bpp <= 31
    ensures RectAt(s, p, bpp) == Err(Incomplete) ==> |s| < p + 0x40_0000_0000
    ensures RectAt(s, p, bpp).Ok? ==> RectAt(s, p, bpp).value.at < p + 0x40_0000_0000
  {
    hide BodyAt;
    if |s| >= p + 12 {
      BodyBound(s, p + 12, I32Of(s, p + 8), U16Of(s, p + 4), U16Of(s, p + 6), bpp);
    }
  }

  lemma {:induction false} RectsBound(s: seq<Byte>, p: nat, n: nat, bpp: nat)
    requires p <= |s| && bpp <= 31
    ensures RectsEnd(s, p, n, bpp) == Err(Incomplete) ==> |s| < p + n * 0x40_0000_0000
    decreases n
  {
    hide RectAt;
    if n > 0 {
      RectBound(s, p, bpp);
      var a := RectAt(s, p, bpp);
      if a.Ok? && a.value.Next? { RectsBound(s, a.value.at, n - 1, bpp); }
    }
  }

  /** Waiting is bounded: no buffer of 2^54 bytes is still incomplete. */
  lemma ServerNeverStalls(s: seq<Byte>, bpp: nat)
    requires bpp <= 31 && |s| >= 0x40_0000_0000_0000
    ensures Settled(ParseServer(s, bpp))
  {
    if s[0] == 0 { RectsBound(s, 4, U16Of(s, 2), bpp); }
  }

  // A pixel format changed by the client while an update is under way.

  /** The extent of this rectangle depends on the pixel format. */
  predicate PixelSized(s: seq<Byte>, p: nat)
    requires p + 12 <= |s|
  {
    var encoding := I32Of(s, p + 8);
    && (encoding == RAW || encoding == CURSOR || (encoding == VMWARE_CURSOR && p + 12 < |s| && s[p + 12] == 0))
    && Pixels(U16Of(s, p + 4), U16Of(s, p + 6), 1) > 0
  }

  /** The rectangle loop meets no such rectangle. */
  predicate PixelFree(s: seq<Byte>, p: nat, n: nat, bpp: nat)
    requires p <= |s|
    decreases n
  {
    n > 0 && p + 12 <= |s| ==>
      && !PixelSized(s, p)
      && var a := RectAt(s, p, bpp);
         a.Ok? && a.value.Next? ==> PixelFree(s, a.value.at, n - 1, bpp)
  }

  predicate PixelFreeMessage(s: seq<Byte>, bpp: nat) {
    |s| >= 4 && s[0] == 0 ==> PixelFree(s, 4, U16Of(s, 2), bpp)
  }

  lemma EmptyArea(w: nat, h: nat, each: nat)
    ensures Pixels(w, h, 1) == 0 ==> Pixels(w, h, each) == 0
  {
    var area := w * h;
    assert Pixels(w, h, 1) == area * 1;
  }

  lemma RectImmune(s: seq<Byte>, p: nat, b1: nat, b2: nat)
    requires p + 12 <= |s| && !PixelSized(s, p)
    ensures RectAt(s, p, b1) == RectAt(s, p, b2)
  {
    EmptyArea(U16Of(s, p + 4), U16Of(s, p + 6), b1);
    EmptyArea(U16Of(s, p + 4), U16Of(s, p + 6), b2);
  }

  lemma {:induction false} RectsImmune(s: seq<Byte>, p: nat, n: nat, b1: nat, b2: nat)
    requires p <= |s| && PixelFree(s, p, n, b1)
    ensures RectsEnd(s, p, n, b1) == RectsEnd(s, p, n, b2) && PixelFree(s, p, n, b2)
    decreases n
  {
    if n > 0 && p + 12 <= |s| {
      RectImmune(s, p, b1, b2);
      var a := RectAt(s, p, b1);
      if a.Ok? && a.value.Next? { RectsImmune(s, a.value.at, n - 1, b1, b2); }
    }
  }

  /** Otherwise it can matter: one Raw pixel ends a byte later in the larger format. */
  lemma PixelSizeMatters()
    ensures var s := [0, 0, 0, 1, 0, 0, 0, 0, 0, 1, 0, 1, 0, 0, 0, 0, 2, 2];
            ParseServer(s, 1) == Ok(FramebufferUpdate(s[..17])) && ParseServer(s, 2) == Ok(FramebufferUpdate(s))
  {
    var s := [0, 0, 0, 1, 0, 0, 0, 0, 0, 1, 0, 1, 0, 0, 0, 0, 2, 2];
    assert U16Of(s, 2) == 1 && U16Of(s, 8) == 1 && U16Of(s, 10) == 1 && I32Of(s, 12) == 0;
    assert RectAt(s, 4, 1) == Ok(Next(17)) && RectAt(s, 4, 2) == Ok(Next(18));
    assert RectsEnd(s, 4, 1, 1) == Ok(17) && RectsEnd(s, 4, 1, 2) == Ok(18);
    assert s[..18] == s;
  }

  /** A shorter buffer meets no more rectangles. */
  lemma {:induction false} RectsPrefix(s: seq<Byte>, t: seq<Byte>, p: nat, n: nat, bpp: nat)
    requires s <= t && p <= |s| && PixelFree(t, p, n, bpp)
    ensures PixelFree(s, p, n, bpp)
    decreases n
  {
    hide RectAt;
    if n > 0 && p + 12 <= |s| {
      var a := RectAt(s, p, bpp);
      if a.Ok? && a.value.Next? {
        RectLocal(s, t, p, bpp);
        RectsPrefix(s, t, a.value.at, n - 1, bpp);
      }
    }
  }

  lemma PixelFreeMessagePrefix(s: seq<Byte>, t: seq<Byte>, bpp: nat)
    requires s <= t && PixelFreeMessage(t, bpp)
    ensures PixelFreeMessage(s, bpp)
  {
    hide PixelFree;
    if |s| >= 4 && s[0] == 0 { RectsPrefix(s, t, 4, U16Of(s, 2), bpp); }
  }

  /** A parse that meets no pixel-sized rectangle has the same outcome in every pixel format. */
  lemma PixelFormatImmune(s: seq<Byte>, b1: nat, b2: nat)
    requires PixelFreeMessage(s, b1)
    ensures ParseServer(s, b1) == ParseServer(s, b2) && PixelFreeMessage(s, b2)
  {
    if |s| >= 4 && s[0] == 0 { RectsImmune(s, 4, U16Of(s, 2), b1, b2); }
  }
}
