/**
 The wire grammar of server messages, written as a printer, and the proof that the parser accepts
 exactly what it prints: RFC 6143 sections 7.6.1 to 7.6.4, 7.7.1, 7.7.2, 7.7.6 and 7.8.1, with the
 Tight, fence, desktop-size and VMware extensions. The reductions modulo a power of two in the printer
 keep it total; on valid messages they change nothing.
 */
module ServerGrammar {
  import opened Bytes
  import opened Io
  import opened ServerParser
  import opened ServerStability

  /** The least number of whole bytes that hold so many bits. */
  ghost function LeastBytes(bits: nat): (n: nat)
    ensures bits <= 8 * n < bits + 8
  {
    if bits == 0 then 0 else 1 + LeastBytes(if bits < 8 then 0 else bits - 8)
  }

  /** Tight pixel data: verbatim, or behind a compact length. */
  datatype TightData = Verbatim(data: seq<Byte>) | Packed(length: Compact, data: seq<Byte>) {
    ghost predicate Valid(size: nat) {
      match this
      case Verbatim(data) => |data| == size < 12
      case Packed(length, data) => size >= 12 && length.Valid() && |data| == length.Value()
    }

    ghost function Encode(): (e: seq<Byte>) {
      if Verbatim? then data else if length.Valid() then length.Encode() + data else []
    }
  }

  /** The five forms of a Tight rectangle; `control` keeps the stream-reset bits. */
  datatype TightRect =
    | Fill(control: Byte, color: seq<Byte>)
    | Jpeg(control: Byte, length: Compact, data: seq<Byte>)
    | Basic(control: Byte, pixels: TightData)
    | BasicCopy(control: Byte, pixels: TightData)
    | BasicPalette(control: Byte, palette: seq<Byte>, indices: TightData)
  {
    ghost predicate Valid(width: nat, height: nat) {
      var kind := control / 16;
      match this
      case Fill(_, color) => kind == 8 && |color| == 3
      case Jpeg(_, length, data) => kind == 9 && length.Valid() && |data| == length.Value()
      case Basic(_, pixels) =>
        kind != 8 && kind != 9 && kind / 4 % 2 == 0 && pixels.Valid(width * height * 3)
      case BasicCopy(_, pixels) =>
        kind != 8 && kind != 9 && kind / 4 % 2 == 1 && pixels.Valid(width * height * 3)
      case BasicPalette(_, palette, indices) =>
        && kind != 8 && kind != 9 && kind / 4 % 2 == 1
        && 3 <= |palette| <= 768 && |palette| % 3 == 0
        && indices.Valid(if |palette| <= 6 then LeastBytes(width) * height else width * height)
    }

    ghost function Encode(): (e: seq<Byte>) {
      match this
      case Fill(c, color) => [c] + color
      case Jpeg(c, length, data) => [c] + Packed(length, data).Encode()
      case Basic(c, pixels) => [c] + pixels.Encode()
      case BasicCopy(c, pixels) => [c, 0] + pixels.Encode()
      case BasicPalette(c, palette, indices) =>
        [c, 1, (|palette| / 3 - 1) % 256] + (palette + indices.Encode())
    }
  }

  datatype Body =
    | Raw(pixels: seq<Byte>)
    | CopyRect(source: seq<Byte>)
    | Tight(rect: TightRect)
    | Zrle(data: seq<Byte>)
    | CursorShape(pixels: seq<Byte>, mask: seq<Byte>)
    | QemuExtendedKey
    | DesktopSize(padding: seq<Byte>, screens: seq<Byte>)
    | VmwareMasks(pad: Byte, masks: seq<Byte>)
    | VmwareAlpha(pad: Byte, pixels: seq<Byte>)
  {
    ghost function Encoding(): (n: int) {
      match this
      case Raw(_) => 0
      case CopyRect(_) => 1
      case Tight(_) => 7
      case Zrle(_) => 16
      case CursorShape(_, _) => -239
      case QemuExtendedKey => -258
      case DesktopSize(_, _) => -308
      case VmwareMasks(_, _) => 0x574D_5664
      case VmwareAlpha(_, _) => 0x574D_5664
    }

    ghost predicate Valid(width: nat, height: nat, bpp: nat) {
      match this
      case Raw(pixels) => |pixels| == width * height * bpp
      case CopyRect(source) => |source| == 4
      case Tight(rect) => rect.Valid(width, height)
      case Zrle(data) => |data| <= 0x40_0000
      case CursorShape(pixels, mask) =>
        |pixels| == width * height * bpp && |mask| == LeastBytes(width) * height
      case QemuExtendedKey => true
      case DesktopSize(padding, screens) => |padding| == 3 && |screens| <= 16 * 255 && |screens| % 16 == 0
      case VmwareMasks(_, masks) => |masks| == 2 * width * height * bpp
      case VmwareAlpha(_, pixels) => |pixels| == width * height * 4
    }

    ghost function Encode(): (e: seq<Byte>) {
      match this
      case Raw(pixels) => pixels
      case CopyRect(source) => source
      case Tight(rect) => rect.Encode()
      case Zrle(data) => Be32(|data| % 0x1_0000_0000) + data
      case CursorShape(pixels, mask) => pixels + mask
      case QemuExtendedKey => []
      case DesktopSize(padding, screens) => [|screens| / 16 % 256] + padding + screens
      case VmwareMasks(padding, masks) => [0, padding] + masks
      case VmwareAlpha(padding, pixels) => [1, padding] + pixels
    }
  }

  datatype Rect = Rect(x: U16, y: U16, width: U16, height: U16, body: Body) {
    ghost predicate Valid(bpp: nat) { body.Valid(width, height, bpp) }

    ghost function Encode(): (e: seq<Byte>) {
      Header(x, y, width, height, body.Encoding()) + body.Encode()
    }
  }

  ghost function Header(x: U16, y: U16, width: U16, height: U16, encoding: int): (e: seq<Byte>)
    requires -0x8000_0000 <= encoding < 0x8000_0000
    ensures |e| == 12
  {
    Be16(x) + Be16(y) + Be16(width) + Be16(height) + BeI32(encoding)
  }

  /** The pseudo-rectangle that ends a list early; its geometry is not looked at. */
  datatype LastRect = LastRect(x: U16, y: U16, width: U16, height: U16) {
    ghost function Encode(): (e: seq<Byte>) { Header(x, y, width, height, -224) }
  }

  ghost function EncodeRects(rects: seq<Rect>, last: Option<LastRect>): (e: seq<Byte>) {
    if rects == [] then (if last.Some? then last.value.Encode() else [])
    else rects[0].Encode() + EncodeRects(rects[1..], last)
  }

  /** `n` rectangles, or fewer and a LastRect. */
  ghost predicate ValidRects(rects: seq<Rect>, last: Option<LastRect>, n: nat, bpp: nat) {
    if rects == [] then (if last.Some? then n > 0 else n == 0)
    else n > 0 && rects[0].Valid(bpp) && ValidRects(rects[1..], last, n - 1, bpp)
  }

  datatype Packet =
    | Update(pad: Byte, declared: U16, rects: seq<Rect>, last: Option<LastRect>)
    | ColorMap(pad: Byte, first: U16, colors: seq<Byte>)
    | RingBell
    | CutText(padding: seq<Byte>, text: seq<Byte>)
    | ExtendedCutText(padding: seq<Byte>, data: seq<Byte>)
    | EndContinuousUpdates
    | Fence(padding: seq<Byte>, flags: seq<Byte>, data: seq<Byte>)
  {
    ghost predicate Valid(bpp: nat) {
      match this
      case Update(_, declared, rects, last) => ValidRects(rects, last, declared, bpp)
      case ColorMap(_, _, colors) => |colors| % 6 == 0 && |colors| <= 6 * 0xFFFF
      case RingBell => true
      case CutText(padding, text) => |padding| == 3 && |text| <= 0x40_0000
      case ExtendedCutText(padding, data) => |padding| == 3 && 0 < |data| <= 0x40_0000
      case EndContinuousUpdates => true
      case Fence(padding, flags, data) => |padding| == 3 && |flags| == 4 && |data| < 256
    }

    ghost function Encode(): (e: seq<Byte>) {
      match this
      case Update(padding, declared, rects, last) => [0, padding] + Be16(declared) + EncodeRects(rects, last)
      case ColorMap(padding, first, colors) => [1, padding] + Be16(first) + Be16(|colors| / 6 % 0x1_0000) + colors
      case RingBell => [2]
      case CutText(padding, text) => [3] + padding + Be32(|text| % 0x8000_0000) + text
      case ExtendedCutText(padding, data) => [3] + padding + BeI32(-(|data| % 0x8000_0000)) + data
      case EndContinuousUpdates => [150]
      case Fence(padding, flags, data) => [248] + padding + flags + [|data| % 256] + data
    }

    /** The message it is. */
    ghost function Message(): (m: Message) {
      match this
      case Update(_, _, _, _) => FramebufferUpdate(Encode())
      case ColorMap(_, _, _) => SetColorMapEntries(Encode())
      case RingBell => Bell(Encode())
      case CutText(_, _) => ServerCutText(Encode())
      case ExtendedCutText(_, _) => ServerCutText(Encode())
      case EndContinuousUpdates => EndOfContinuousUpdates(Encode())
      case Fence(_, _, _) => ServerFence(Encode())
    }
  }

  /** The four bytes past the length that an extended cut text must show before it is recognized. */
  ghost predicate Recognizable(g: Packet, s: seq<Byte>) {
    g.ExtendedCutText? ==> |s| >= 12
  }

  // The sizes the parser computes are those of the grammar.

  lemma PixelsAre(w: nat, h: nat, each: nat)
    ensures Pixels(w, h, each) == w * h * each
  {
  }

  lemma RowsAre(w: nat, h: nat)
    ensures Rows(w, h) == LeastBytes(w) * h
  {
    assert DivCeil8(w) == LeastBytes(w);
  }

  lemma PaletteAre(w: nat, h: nat, colors: nat)
    ensures PaletteSize(w, h, colors) == if colors <= 2 then LeastBytes(w) * h else w * h
  {
    if colors <= 2 {
      RowsAre(w, h);
    } else {
      assert DivCeil8(w * 8) == w;
    }
  }

  // Everything the grammar prints is accepted.

  lemma TightDataAccepted(d: TightData, size: nat, s: seq<Byte>, p: nat)
    requires d.Valid(size) && At(s, p, d.Encode())
    ensures TightDataAt(s, p, size) == Ok(p + |d.Encode()|)
  {
    if d.Packed? {
      AtSplit(s, p, d.length.Encode(), d.data);
      CompactReadsBack(d.length, s, p);
    }
  }

  // One step of the Tight reader for each kind of control byte.

  lemma TightFill(s: seq<Byte>, p: nat, w: nat, h: nat)
    requires p < |s| && s[p] / 16 == 8
    ensures TightAt(s, p, w, h) == SkipAt(s, p + 1, 3)
  {
    hide SkipAt, CompressedAt, FilteredAt, FilterAt;
  }

  lemma TightJpeg(s: seq<Byte>, p: nat, w: nat, h: nat)
    requires p < |s| && s[p] / 16 == 9
    ensures TightAt(s, p, w, h) == CompressedAt(s, p + 1)
  {
    hide SkipAt, CompressedAt, FilteredAt, FilterAt;
  }

  lemma TightBasic(s: seq<Byte>, p: nat, w: nat, h: nat)
    requires p < |s| && s[p] / 16 != 8 && s[p] / 16 != 9 && s[p] / 16 / 4 % 2 == 0
    ensures TightAt(s, p, w, h) == TightDataAt(s, p + 1, Pixels(w, h, 3))
  {
    hide SkipAt, CompressedAt, TightDataAt, Pixels, PaletteSize;
  }

  lemma TightFiltered(s: seq<Byte>, p: nat, w: nat, h: nat)
    requires p + 1 < |s| && s[p] / 16 != 8 && s[p] / 16 != 9 && s[p] / 16 / 4 % 2 == 1
    ensures TightAt(s, p, w, h) == FilteredAt(s, p + 2, s[p + 1], w, h)
  {
    hide SkipAt, CompressedAt, FilteredAt;
  }

  lemma FilteredPalette(s: seq<Byte>, p: nat, w: nat, h: nat, colors: nat)
    requires p < |s| && s[p] as int + 1 == colors && p + 1 + 3 * colors <= |s|
    ensures FilteredAt(s, p, 1, w, h) == TightDataAt(s, p + 1 + 3 * colors, PaletteSize(w, h, colors))
  {
    hide TightDataAt, PaletteSize, Pixels;
  }

  lemma FillAccepted(t: TightRect, w: nat, h: nat, s: seq<Byte>, p: nat)
    requires t.Fill? && t.Valid(w, h) && At(s, p, t.Encode())
    ensures TightAt(s, p, w, h) == Ok(p + |t.Encode()|)
  {
    hide TightAt;
    AtFirst(s, p, t.control, t.color);
    TightFill(s, p, w, h);
  }

  lemma CompressedAccepted(length: Compact, data: seq<Byte>, s: seq<Byte>, p: nat)
    requires length.Valid() && |data| == length.Value() && At(s, p, Packed(length, data).Encode())
    ensures CompressedAt(s, p) == Ok(p + |Packed(length, data).Encode()|)
  {
    hide Compact.Encode, CompactAt;
    AtSplit(s, p, length.Encode(), data);
    CompactReadsBack(length, s, p);
  }

  lemma JpegAccepted(t: TightRect, w: nat, h: nat, s: seq<Byte>, p: nat)
    requires t.Jpeg? && t.Valid(w, h) && At(s, p, t.Encode())
    ensures TightAt(s, p, w, h) == Ok(p + |t.Encode()|)
  {
    hide TightAt, CompressedAt, TightData.Encode, At;
    AtFirst(s, p, t.control, Packed(t.length, t.data).Encode());
    TightJpeg(s, p, w, h);
    CompressedAccepted(t.length, t.data, s, p + 1);
  }

  lemma BasicAccepted(t: TightRect, w: nat, h: nat, s: seq<Byte>, p: nat)
    requires t.Basic? && t.Valid(w, h) && At(s, p, t.Encode())
    ensures TightAt(s, p, w, h) == Ok(p + |t.Encode()|)
  {
    hide TightAt, TightDataAt, TightData.Encode, TightData.Valid, Pixels, PaletteSize, At;
    AtFirst(s, p, t.control, t.pixels.Encode());
    TightBasic(s, p, w, h);
    PixelsAre(w, h, 3);
    TightDataAccepted(t.pixels, Pixels(w, h, 3), s, p + 1);
  }

  lemma BasicCopyAccepted(t: TightRect, w: nat, h: nat, s: seq<Byte>, p: nat)
    requires t.BasicCopy? && t.Valid(w, h) && At(s, p, t.Encode())
    ensures TightAt(s, p, w, h) == Ok(p + |t.Encode()|)
  {
    hide TightAt, TightDataAt, TightData.Encode, TightData.Valid, Pixels, PaletteSize, At;
    var pixels := t.pixels.Encode();
    assert t.Encode() == [t.control] + ([0] + pixels);
    AtFirst(s, p, t.control, [0] + pixels);
    AtFirst(s, p + 1, 0, pixels);
    TightFiltered(s, p, w, h);
    PixelsAre(w, h, 3);
    TightDataAccepted(t.pixels, Pixels(w, h, 3), s, p + 2);
  }

  lemma PaletteDataAccepted(palette: seq<Byte>, indices: TightData, w: nat, h: nat, s: seq<Byte>, p: nat)
    requires 3 <= |palette| <= 768 && |palette| % 3 == 0
    requires indices.Valid(PaletteSize(w, h, |palette| / 3))
    requires p < |s| && s[p] == |palette| / 3 - 1 && At(s, p + 1, palette + indices.Encode())
    ensures FilteredAt(s, p, 1, w, h) == Ok(p + 1 + |palette| + |indices.Encode()|)
  {
    hide FilteredAt, TightDataAt, TightData.Encode, TightData.Valid, PaletteSize;
    AtSplit(s, p + 1, palette, indices.Encode());
    FilteredPalette(s, p, w, h, |palette| / 3);
    TightDataAccepted(indices, PaletteSize(w, h, |palette| / 3), s, p + 1 + |palette|);
  }

  lemma PaletteParts(t: TightRect, s: seq<Byte>, p: nat)
    requires t.BasicPalette? && 3 <= |t.palette| <= 768 && At(s, p, t.Encode())
    ensures var tail := t.palette + t.indices.Encode();
            && |t.Encode()| == 3 + |tail|
            && p + 2 < |s| && s[p] == t.control && s[p + 1] == 1 && s[p + 2] == |t.palette| / 3 - 1
            && At(s, p + 3, tail)
  {
    hide TightData.Encode, At;
    var last := |t.palette| / 3 - 1;
    var tail := t.palette + t.indices.Encode();
    assert last % 256 == last;
    assert t.Encode() == [t.control, 1, last] + tail;
    AtThree(s, p, t.control, 1, last, tail);
  }

  lemma AtThree(s: seq<Byte>, p: nat, a: Byte, b: Byte, c: Byte, rest: seq<Byte>)
    requires At(s, p, [a, b, c] + rest)
    ensures p + 2 < |s| && s[p] == a && s[p + 1] == b && s[p + 2] == c && At(s, p + 3, rest)
  {
    hide At;
    assert [a, b, c] + rest == [a] + ([b] + ([c] + rest));
    AtFirst(s, p, a, [b] + ([c] + rest));
    AtFirst(s, p + 1, b, [c] + rest);
    AtFirst(s, p + 2, c, rest);
  }

  lemma PaletteAccepted(t: TightRect, w: nat, h: nat, s: seq<Byte>, p: nat)
    requires t.BasicPalette? && t.Valid(w, h) && At(s, p, t.Encode())
    ensures TightAt(s, p, w, h) == Ok(p + |t.Encode()|)
  {
    hide TightAt, FilteredAt, TightRect.Encode, TightData.Encode, TightData.Valid, PaletteSize, Pixels, At;
    PaletteParts(t, s, p);
    PaletteAre(w, h, |t.palette| / 3);
    TightFiltered(s, p, w, h);
    PaletteDataAccepted(t.palette, t.indices, w, h, s, p + 2);
  }

  lemma TightAccepted(t: TightRect, w: nat, h: nat, s: seq<Byte>, p: nat)
    requires t.Valid(w, h) && At(s, p, t.Encode())
    ensures TightAt(s, p, w, h) == Ok(p + |t.Encode()|)
  {
    hide TightAt, TightRect.Encode, TightRect.Valid;
    match t
    case Fill(_, _) => FillAccepted(t, w, h, s, p);
    case Jpeg(_, _, _) => JpegAccepted(t, w, h, s, p);
    case Basic(_, _) => BasicAccepted(t, w, h, s, p);
    case BasicCopy(_, _) => BasicCopyAccepted(t, w, h, s, p);
    case BasicPalette(_, _, _) => PaletteAccepted(t, w, h, s, p);
  }

  lemma ZrleAccepted(data: seq<Byte>, s: seq<Byte>, p: nat)
    requires |data| <= MAX_MESSAGE_LENGTH && At(s, p, Zrle(data).Encode())
    ensures ZrleAt(s, p) == Ok(p + 4 + |data|)
  {
    hide Be32, U32Of;
    assert Zrle(data).Encode() == Be32(|data|) + data;
    AtSplit(s, p, Be32(|data|), data);
    ReadsBackU32(s, p, |data|);
  }

  lemma VmwareSizes(w: nat, h: nat, bpp: nat)
    ensures 2 * Pixels(w, h, bpp) == 2 * w * h * bpp && Pixels(w, h, 4) == w * h * 4
  {
    var area := w * h;
    assert 2 * w * h == 2 * area;
    assert 2 * area * bpp == 2 * (area * bpp);
  }

  lemma MasksAccepted(pad: Byte, masks: seq<Byte>, w: nat, h: nat, bpp: nat, s: seq<Byte>, p: nat)
    requires |masks| == 2 * Pixels(w, h, bpp) && At(s, p, [0, pad] + masks)
    ensures VmwareCursorAt(s, p, w, h, bpp) == Ok(p + 2 + |masks|)
  {
    hide Pixels;
    assert [0, pad] + masks == [0] + ([pad] + masks);
    AtFirst(s, p, 0, [pad] + masks);
    AtFirst(s, p + 1, pad, masks);
  }

  lemma AlphaAccepted(pad: Byte, pixels: seq<Byte>, w: nat, h: nat, bpp: nat, s: seq<Byte>, p: nat)
    requires |pixels| == Pixels(w, h, 4) && At(s, p, [1, pad] + pixels)
    ensures VmwareCursorAt(s, p, w, h, bpp) == Ok(p + 2 + |pixels|)
  {
    hide Pixels;
    assert [1, pad] + pixels == [1] + ([pad] + pixels);
    AtFirst(s, p, 1, [pad] + pixels);
    AtFirst(s, p + 1, pad, pixels);
  }

  lemma ScreensAccepted(padding: seq<Byte>, screens: seq<Byte>, s: seq<Byte>, p: nat)
    requires |padding| == 3 && |screens| <= 16 * 255 && |screens| % 16 == 0
    requires At(s, p, [|screens| / 16 % 256] + padding + screens)
    ensures ScreensAt(s, p) == Ok(p + 4 + |screens|)
  {
    var n: nat := |screens| / 16;
    assert n % 256 == n && [n] + padding + screens == [n] + (padding + screens);
    AtFirst(s, p, n, padding + screens);
    AtSplit(s, p + 1, padding, screens);
  }

  /** The bodies whose first byte is a count or a kind. */
  lemma TaggedAccepted(b: Body, w: nat, h: nat, bpp: nat, s: seq<Byte>, p: nat)
    requires b.DesktopSize? || b.VmwareMasks? || b.VmwareAlpha?
    requires b.Valid(w, h, bpp) && At(s, p, b.Encode())
    ensures BodyAt(s, p, b.Encoding(), w, h, bpp) == Ok(p + |b.Encode()|)
  {
    hide Pixels, VmwareCursorAt, ScreensAt, At;
    VmwareSizes(w, h, bpp);
    match b
    case DesktopSize(padding, screens) => ScreensAccepted(padding, screens, s, p);
    case VmwareMasks(pad, masks) => MasksAccepted(pad, masks, w, h, bpp, s, p);
    case VmwareAlpha(pad, pixels) => AlphaAccepted(pad, pixels, w, h, bpp, s, p);
  }

  lemma BodyAccepted(b: Body, w: nat, h: nat, bpp: nat, s: seq<Byte>, p: nat)
    requires b.Valid(w, h, bpp) && At(s, p, b.Encode())
    ensures BodyAt(s, p, b.Encoding(), w, h, bpp) == Ok(p + |b.Encode()|)
  {
    hide TightAt, TightRect.Encode, TightRect.Valid, ZrleAt, VmwareCursorAt;
    if b.CursorShape? { RowsAre(w, h); }
    match b
    case Tight(rect) => TightAccepted(rect, w, h, s, p);
    case Zrle(data) => ZrleAccepted(data, s, p);
    case DesktopSize(_, _) => TaggedAccepted(b, w, h, bpp, s, p);
    case VmwareMasks(_, _) => TaggedAccepted(b, w, h, bpp, s, p);
    case VmwareAlpha(_, _) => TaggedAccepted(b, w, h, bpp, s, p);
    case _ =>
  }

  lemma HeaderReadsBack(x: U16, y: U16, w: U16, h: U16, encoding: int, s: seq<Byte>, p: nat)
    requires -0x8000_0000 <= encoding < 0x8000_0000
    requires At(s, p, Header(x, y, w, h, encoding))
    ensures U16Of(s, p + 4) == w && U16Of(s, p + 6) == h && I32Of(s, p + 8) == encoding
  {
    AtSplit(s, p, Be16(x) + Be16(y) + Be16(w) + Be16(h), BeI32(encoding));
    AtBytes(s, p, Be16(x) + Be16(y) + Be16(w) + Be16(h));
    ReadsBackI32(s, p + 8, encoding);
  }

  lemma RectAccepted(r: Rect, bpp: nat, s: seq<Byte>, p: nat)
    requires r.Valid(bpp) && At(s, p, r.Encode())
    ensures RectAt(s, p, bpp) == Ok(Next(p + |r.Encode()|))
  {
    hide BodyAt, Body.Encode, Body.Valid;
    AtSplit(s, p, Header(r.x, r.y, r.width, r.height, r.body.Encoding()), r.body.Encode());
    HeaderReadsBack(r.x, r.y, r.width, r.height, r.body.Encoding(), s, p);
    BodyAccepted(r.body, r.width, r.height, bpp, s, p + 12);
  }

  lemma LastAccepted(l: LastRect, bpp: nat, s: seq<Byte>, p: nat)
    requires At(s, p, l.Encode())
    ensures RectAt(s, p, bpp) == Ok(Last(p + |l.Encode()|))
  {
    HeaderReadsBack(l.x, l.y, l.width, l.height, -224, s, p);
  }

  lemma RectsStep(s: seq<Byte>, p: nat, n: nat, bpp: nat, at: nat)
    requires p <= |s| && n > 0 && RectAt(s, p, bpp) == Ok(Next(at))
    ensures RectsEnd(s, p, n, bpp) == RectsEnd(s, at, n - 1, bpp)
  {
  }

  lemma RectsStop(s: seq<Byte>, p: nat, n: nat, bpp: nat, at: nat)
    requires p <= |s| && n > 0 && RectAt(s, p, bpp) == Ok(Last(at))
    ensures RectsEnd(s, p, n, bpp) == Ok(at)
  {
  }

  lemma {:induction false} RectsAccepted(
    rects: seq<Rect>, last: Option<LastRect>, n: nat, bpp: nat, s: seq<Byte>, p: nat)
    requires ValidRects(rects, last, n, bpp) && At(s, p, EncodeRects(rects, last))
    ensures RectsEnd(s, p, n, bpp) == Ok(p + |EncodeRects(rects, last)|)
    decreases n
  {
    hide RectAt, Rect.Encode, Rect.Valid, LastRect.Encode;
    if rects != [] {
      var r := rects[0];
      var e := r.Encode();
      var tail := EncodeRects(rects[1..], last);
      AtSplit(s, p, e, tail);
      RectAccepted(r, bpp, s, p);
      RectsAccepted(rects[1..], last, n - 1, bpp, s, p + |e|);
      RectsStep(s, p, n, bpp, p + |e|);
    } else if last.Some? {
      LastAccepted(last.value, bpp, s, p);
      RectsStop(s, p, n, bpp, p + |last.value.Encode()|);
    }
  }

  lemma CutTextAccepted(padding: seq<Byte>, n: int, text: seq<Byte>, s: seq<Byte>)
    requires |padding| == 3 && |text| == (if n >= 0 then n else -n) <= MAX_MESSAGE_LENGTH
    requires At(s, 0, [3] + padding + BeI32(n) + text)
    requires n < 0 ==> |s| >= 12
    ensures CutTextEnd(s) == Ok(8 + |text|)
  {
    AtSplit(s, 0, [3] + padding + BeI32(n), text);
    AtSplit(s, 0, [3] + padding, BeI32(n));
    ReadsBackI32(s, 4, n);
  }

  lemma UpdateAccepted(g: Packet, bpp: nat, s: seq<Byte>)
    requires g.Update? && g.Valid(bpp) && At(s, 0, g.Encode())
    ensures UpdateEnd(s, bpp) == Ok(|g.Encode()|)
  {
    hide RectsEnd, EncodeRects, ValidRects;
    AtSplit(s, 0, [0, g.pad] + Be16(g.declared), EncodeRects(g.rects, g.last));
    AtSplit(s, 0, [0, g.pad], Be16(g.declared));
    ReadsBackU16(s, 2, g.declared);
    RectsAccepted(g.rects, g.last, g.declared, bpp, s, 4);
  }

  lemma ColorMapPrint(g: Packet)
    requires g.ColorMap? && |g.colors| <= 6 * 0xFFFF
    ensures g.Encode() == [1, g.pad] + Be16(g.first) + Be16(|g.colors| / 6) + g.colors
  {
    hide Be16;
    assert |g.colors| / 6 % 0x1_0000 == |g.colors| / 6;
  }

  lemma ColorMapAccepted(g: Packet, bpp: nat, s: seq<Byte>)
    requires g.ColorMap? && g.Valid(bpp) && At(s, 0, g.Encode())
    ensures ColorMapEnd(s) == Ok(|g.Encode()|)
  {
    hide Packet.Encode, Be16, U16Of;
    ColorMapPrint(g);
    var n: U16 := |g.colors| / 6;
    AtSplit(s, 0, [1, g.pad] + Be16(g.first) + Be16(n), g.colors);
    AtSplit(s, 0, [1, g.pad] + Be16(g.first), Be16(n));
    ReadsBackU16(s, 4, n);
  }

  lemma FencePrint(g: Packet)
    requires g.Fence? && |g.data| < 256
    ensures g.Encode() == [248] + g.padding + g.flags + [|g.data|] + g.data
  {
    assert |g.data| % 256 == |g.data|;
  }

  lemma FenceAccepted(g: Packet, bpp: nat, s: seq<Byte>)
    requires g.Fence? && g.Valid(bpp) && At(s, 0, g.Encode())
    ensures FenceEnd(s) == Ok(|g.Encode()|)
  {
    hide Packet.Encode;
    FencePrint(g);
    var head := [248] + g.padding + g.flags;
    AtSplit(s, 0, head + [|g.data|], g.data);
    AtSplit(s, 0, head, [|g.data|]);
    AtBytes(s, 8, [|g.data|]);
    assert s[8 + 0] == [|g.data|][0];
  }

  lemma TextAccepted(g: Packet, bpp: nat, s: seq<Byte>)
    requires g.CutText? && g.Valid(bpp) && At(s, 0, g.Encode())
    ensures CutTextEnd(s) == Ok(|g.Encode()|)
  {
    hide CutTextEnd, Packet.Encode, BeI32;
    CutTextPrint(g);
    CutTextAccepted(g.padding, |g.text|, g.text, s);
  }

  lemma ExtendedTextAccepted(g: Packet, bpp: nat, s: seq<Byte>)
    requires g.ExtendedCutText? && g.Valid(bpp) && At(s, 0, g.Encode()) && |s| >= 12
    ensures CutTextEnd(s) == Ok(|g.Encode()|)
  {
    hide CutTextEnd, Packet.Encode, BeI32;
    ExtendedPrint(g);
    CutTextAccepted(g.padding, -|g.data|, g.data, s);
  }

  /** The message identifier is the first byte printed. */
  ghost function Id(g: Packet): (n: Byte) {
    match g
    case Update(_, _, _, _) => 0
    case ColorMap(_, _, _) => 1
    case RingBell => 2
    case CutText(_, _) => 3
    case ExtendedCutText(_, _) => 3
    case EndContinuousUpdates => 150
    case Fence(_, _, _) => 248
  }

  lemma IdFirst(g: Packet)
    ensures g.Encode() != [] && g.Encode()[0] == Id(g)
  {
  }

  lemma Framed(g: Packet, s: seq<Byte>, bpp: nat)
    requires g.Encode() <= s && MessageEnd(s, bpp) == Ok(|g.Encode()|)
    ensures ParseServer(s, bpp) == Ok(g.Message())
  {
    hide MessageEnd, Packet.Encode;
    IdFirst(g);
    assert s[..|g.Encode()|] == g.Encode();
  }

  /** Completeness: a printed message in front of any bytes is framed exactly. */
  lemma ServerAccepts(g: Packet, bpp: nat, s: seq<Byte>)
    requires g.Valid(bpp) && g.Encode() <= s && Recognizable(g, s)
    ensures ParseServer(s, bpp) == Ok(g.Message())
  {
    hide UpdateEnd, ColorMapEnd, CutTextEnd, FenceEnd, ValidRects, EncodeRects, MessageOf, Packet.Message;
    var e := g.Encode();
    assert At(s, 0, e);
    IdFirst(g);
    assert s[0] == Id(g);
    match g {
      case Update(_, _, _, _) => UpdateAccepted(g, bpp, s);
      case ColorMap(_, _, _) => ColorMapAccepted(g, bpp, s);
      case CutText(_, _) => TextAccepted(g, bpp, s);
      case ExtendedCutText(_, _) => ExtendedTextAccepted(g, bpp, s);
      case Fence(_, _, _) => FenceAccepted(g, bpp, s);
      case _ =>
    }
    Framed(g, s, bpp);
  }

  // Everything accepted is printed by the grammar.

  lemma TightDataExplained(s: seq<Byte>, p: nat, size: nat) returns (d: TightData)
    requires p <= |s| && TightDataAt(s, p, size).Ok?
    ensures d.Valid(size) && d.Encode() == s[p..TightDataAt(s, p, size).value]
  {
    var end := TightDataAt(s, p, size).value;
    if size < 12 {
      d := Verbatim(s[p..end]);
    } else {
      var length := CompactExplained(s, p);
      var next := CompactAt(s, p).value.next;
      d := Packed(length, s[next..end]);
      assert s[p..end] == s[p..next] + s[next..end];
    }
  }

  lemma TightExplained(s: seq<Byte>, p: nat, w: nat, h: nat) returns (t: TightRect)
    requires p <= |s| && TightAt(s, p, w, h).Ok?
    ensures t.Valid(w, h) && t.Encode() == s[p..TightAt(s, p, w, h).value]
  {
    hide TightAt, FilteredAt, CompressedAt, Pixels, PaletteSize;
    var end := TightAt(s, p, w, h).value;
    TightNonEmpty(s, p, w, h);
    var c := s[p];
    Single(s, p);
    Join(s, p, p + 1, end);
    if c / 16 == 8 {
      TightFill(s, p, w, h);
      t := Fill(c, s[p + 1..end]);
    } else if c / 16 == 9 {
      TightJpeg(s, p, w, h);
      var length, data := CompressedExplained(s, p + 1);
      t := Jpeg(c, length, data);
    } else {
      t := FilteredExplained(s, p, w, h);
    }
  }

  lemma TightNonEmpty(s: seq<Byte>, p: nat, w: nat, h: nat)
    requires p <= |s| && TightAt(s, p, w, h).Ok?
    ensures p < TightAt(s, p, w, h).value <= |s|
    ensures s[p] / 16 != 8 && s[p] / 16 != 9 && s[p] / 16 / 4 % 2 == 1 ==>
              p + 1 < TightAt(s, p, w, h).value && s[p + 1] <= 1
  {
    hide CompressedAt, TightDataAt, Pixels, PaletteSize;
  }

  lemma CompressedExplained(s: seq<Byte>, p: nat) returns (length: Compact, data: seq<Byte>)
    requires p <= |s| && CompressedAt(s, p).Ok?
    ensures length.Valid() && |data| == length.Value()
    ensures Packed(length, data).Encode() == s[p..CompressedAt(s, p).value]
  {
    hide CompactAt, Compact.Encode, Compact.Value;
    length := CompactExplained(s, p);
    var next, end := CompactAt(s, p).value.next, CompressedAt(s, p).value;
    data := s[next..end];
    Join(s, p, next, end);
  }

  lemma FilteredExplained(s: seq<Byte>, p: nat, w: nat, h: nat) returns (t: TightRect)
    requires p <= |s| && TightAt(s, p, w, h).Ok?
    requires p < |s| && s[p] / 16 != 8 && s[p] / 16 != 9
    ensures t.Valid(w, h) && t.Encode() == s[p..TightAt(s, p, w, h).value]
  {
    hide TightAt, TightDataAt, TightData.Encode, TightData.Valid, Pixels, PaletteSize;
    var end := TightAt(s, p, w, h).value;
    TightNonEmpty(s, p, w, h);
    var c := s[p];
    if c / 16 / 4 % 2 == 0 {
      TightBasic(s, p, w, h);
      PixelsAre(w, h, 3);
      var d := TightDataExplained(s, p + 1, Pixels(w, h, 3));
      t := Basic(c, d);
      Single(s, p);
      Join(s, p, p + 1, end);
    } else {
      TightFiltered(s, p, w, h);
      if s[p + 1] == 0 {
        PixelsAre(w, h, 3);
        var d := TightDataExplained(s, p + 2, Pixels(w, h, 3));
        t := BasicCopy(c, d);
        Pair(s, p);
        Join(s, p, p + 2, end);
      } else {
        t := PaletteExplained(s, p, w, h);
      }
    }
  }

  lemma PaletteNonEmpty(s: seq<Byte>, p: nat, w: nat, h: nat)
    requires p <= |s| && FilteredAt(s, p, 1, w, h).Ok?
    ensures p < |s| && p + 1 + 3 * (s[p] as int + 1) <= FilteredAt(s, p, 1, w, h).value <= |s|
  {
    hide TightDataAt, PaletteSize, Pixels;
  }

  lemma PaletteExplained(s: seq<Byte>, p: nat, w: nat, h: nat) returns (t: TightRect)
    requires p + 2 <= |s| && FilteredAt(s, p + 2, 1, w, h).Ok?
    requires s[p] / 16 != 8 && s[p] / 16 != 9 && s[p] / 16 / 4 % 2 == 1 && s[p + 1] == 1
    ensures t.Valid(w, h) && t.Encode() == s[p..FilteredAt(s, p + 2, 1, w, h).value]
  {
    hide FilteredAt, TightDataAt, TightData.Encode, TightData.Valid, PaletteSize;
    PaletteNonEmpty(s, p + 2, w, h);
    var end := FilteredAt(s, p + 2, 1, w, h).value;
    var colors: nat := s[p + 2] as int + 1;
    var data := p + 3 + 3 * colors;
    FilteredPalette(s, p + 2, w, h, colors);
    var size := PaletteSize(w, h, colors);
    var d := TightDataExplained(s, data, size);
    t := BasicPalette(s[p], s[p + 3..data], d);
    assert t.Valid(w, h) by { PaletteValid(t, w, h, colors); }
    hide TightRect.Valid;
    PaletteBytes(s, p, data, end);
    assert |t.palette| / 3 == colors;
  }

  lemma PaletteValid(t: TightRect, w: nat, h: nat, colors: nat)
    requires t.BasicPalette? && 1 <= colors <= 256 && |t.palette| == 3 * colors
    requires t.control / 16 != 8 && t.control / 16 != 9 && t.control / 16 / 4 % 2 == 1
    requires t.indices.Valid(PaletteSize(w, h, colors))
    ensures t.Valid(w, h)
  {
    hide TightData.Valid, PaletteSize;
    PaletteAre(w, h, colors);
  }

  lemma PaletteBytes(s: seq<Byte>, p: nat, data: nat, end: nat)
    requires p + 3 <= data <= end <= |s|
    ensures [s[p], s[p + 1], s[p + 2]] + (s[p + 3..data] + s[data..end]) == s[p..end]
  {
    Pair(s, p);
    Single(s, p + 2);
    Join(s, p, p + 2, p + 3);
    Join(s, p + 3, data, end);
    Join(s, p, p + 3, end);
    assert [s[p], s[p + 1], s[p + 2]] == [s[p], s[p + 1]] + [s[p + 2]];
  }

  lemma ZrleExplained(s: seq<Byte>, p: nat, w: nat, h: nat, bpp: nat) returns (b: Body)
    requires p <= |s| && ZrleAt(s, p).Ok?
    ensures b.Encoding() == ZRLE && b.Valid(w, h, bpp)
    ensures b.Encode() == s[p..ZrleAt(s, p).value]
  {
    hide Be32, U32Of;
    var end := ZrleAt(s, p).value;
    b := Zrle(s[p + 4..end]);
    U32RoundTrip(s, p);
    Join(s, p, p + 4, end);
  }

  lemma TightBodyExplained(s: seq<Byte>, p: nat, w: nat, h: nat, bpp: nat) returns (b: Body)
    requires p <= |s| && TightAt(s, p, w, h).Ok?
    ensures b.Encoding() == TIGHT && b.Valid(w, h, bpp)
    ensures b.Encode() == s[p..TightAt(s, p, w, h).value]
  {
    hide TightAt, TightRect.Encode, TightRect.Valid;
    var t := TightExplained(s, p, w, h);
    b := Tight(t);
  }

  lemma ScreensExplained(s: seq<Byte>, p: nat, w: nat, h: nat, bpp: nat) returns (b: Body)
    requires p <= |s| && ScreensAt(s, p).Ok?
    ensures b.Encoding() == EXTENDED_DESKTOP_SIZE && b.Valid(w, h, bpp)
    ensures b.Encode() == s[p..ScreensAt(s, p).value]
  {
    var end := ScreensAt(s, p).value;
    b := DesktopSize(s[p + 1..p + 4], s[p + 4..end]);
    Join(s, p, p + 1, p + 4);
    Join(s, p, p + 4, end);
  }

  lemma CursorExplained(s: seq<Byte>, p: nat, w: nat, h: nat, bpp: nat) returns (b: Body)
    requires p <= |s| && CursorAt(s, p, w, h, bpp).Ok?
    ensures b.Encoding() == CURSOR && b.Valid(w, h, bpp)
    ensures b.Encode() == s[p..CursorAt(s, p, w, h, bpp).value]
  {
    var mask := p + Pixels(w, h, bpp);
    var end := CursorAt(s, p, w, h, bpp).value;
    RowsAre(w, h);
    b := CursorShape(s[p..mask], s[mask..end]);
    Join(s, p, mask, end);
  }

  lemma VmwareExplained(s: seq<Byte>, p: nat, w: nat, h: nat, bpp: nat) returns (b: Body)
    requires p <= |s| && VmwareCursorAt(s, p, w, h, bpp).Ok?
    ensures b.Encoding() == VMWARE_CURSOR && b.Valid(w, h, bpp)
    ensures b.Encode() == s[p..VmwareCursorAt(s, p, w, h, bpp).value]
  {
    var end := VmwareCursorAt(s, p, w, h, bpp).value;
    VmwareSizes(w, h, bpp);
    b := if s[p] == 0 then VmwareMasks(s[p + 1], s[p + 2..end]) else VmwareAlpha(s[p + 1], s[p + 2..end]);
    Join(s, p, p + 2, end);
  }

  lemma PlainExplained(s: seq<Byte>, p: nat, encoding: int, w: nat, h: nat, bpp: nat) returns (b: Body)
    requires p <= |s| && BodyAt(s, p, encoding, w, h, bpp).Ok?
    requires encoding == RAW || encoding == COPY_RECT || encoding == QEMU_EXTENDED_KEY
    ensures b.Encoding() == encoding && b.Valid(w, h, bpp)
    ensures b.Encode() == s[p..BodyAt(s, p, encoding, w, h, bpp).value]
  {
    var bytes := s[p..BodyAt(s, p, encoding, w, h, bpp).value];
    b := if encoding == RAW then Raw(bytes) else if encoding == COPY_RECT then CopyRect(bytes) else QemuExtendedKey;
  }

  lemma BodyExplained(s: seq<Byte>, p: nat, encoding: int, w: nat, h: nat, bpp: nat) returns (b: Body)
    requires p <= |s| && BodyAt(s, p, encoding, w, h, bpp).Ok?
    ensures b.Encoding() == encoding && b.Valid(w, h, bpp)
    ensures b.Encode() == s[p..BodyAt(s, p, encoding, w, h, bpp).value]
  {
    hide TightAt, VmwareCursorAt, ScreensAt, Pixels, ZrleAt, CursorAt, Body.Encode, Body.Valid, Body.Encoding;
    if encoding == RAW || encoding == COPY_RECT || encoding == QEMU_EXTENDED_KEY {
      b := PlainExplained(s, p, encoding, w, h, bpp);
    } else if encoding == TIGHT {
      b := TightBodyExplained(s, p, w, h, bpp);
    } else if encoding == ZRLE {
      b := ZrleExplained(s, p, w, h, bpp);
    } else if encoding == CURSOR {
      b := CursorExplained(s, p, w, h, bpp);
    } else if encoding == EXTENDED_DESKTOP_SIZE {
      b := ScreensExplained(s, p, w, h, bpp);
    } else {
      b := VmwareExplained(s, p, w, h, bpp);
    }
  }

  lemma HeaderExplained(s: seq<Byte>, p: nat)
    requires p + 12 <= |s|
    ensures Header(U16Of(s, p), U16Of(s, p + 2), U16Of(s, p + 4), U16Of(s, p + 6), I32Of(s, p + 8)) == s[p..p + 12]
  {
    hide Be16, BeI32, U16Of, I32Of;
    U16RoundTrip(s, p);
    U16RoundTrip(s, p + 2);
    U16RoundTrip(s, p + 4);
    U16RoundTrip(s, p + 6);
    I32RoundTrip(s, p + 8);
    Join(s, p, p + 2, p + 4);
    Join(s, p, p + 4, p + 6);
    Join(s, p, p + 6, p + 8);
    Join(s, p, p + 8, p + 12);
  }

  lemma RectExplained(s: seq<Byte>, p: nat, bpp: nat) returns (r: Rect)
    requires p <= |s| && RectAt(s, p, bpp).Ok? && RectAt(s, p, bpp).value.Next?
    ensures r.Valid(bpp) && r.Encode() == s[p..RectAt(s, p, bpp).value.at]
  {
    hide BodyAt, Body.Encode, Body.Valid, Header;
    var w, h := U16Of(s, p + 4), U16Of(s, p + 6);
    var body := BodyExplained(s, p + 12, I32Of(s, p + 8), w, h, bpp);
    r := Rect(U16Of(s, p), U16Of(s, p + 2), w, h, body);
    HeaderExplained(s, p);
    Join(s, p, p + 12, RectAt(s, p, bpp).value.at);
  }

  lemma LastExplained(s: seq<Byte>, p: nat, bpp: nat) returns (l: LastRect)
    requires p <= |s| && RectAt(s, p, bpp).Ok? && RectAt(s, p, bpp).value.Last?
    ensures l.Encode() == s[p..RectAt(s, p, bpp).value.at]
  {
    hide BodyAt, Header;
    l := LastRect(U16Of(s, p), U16Of(s, p + 2), U16Of(s, p + 4), U16Of(s, p + 6));
    HeaderExplained(s, p);
  }

  lemma FirstRect(r: Rect, tail: seq<Rect>, last: Option<LastRect>, n: nat, bpp: nat)
    ensures EncodeRects([r] + tail, last) == r.Encode() + EncodeRects(tail, last)
    ensures n > 0 && r.Valid(bpp) && ValidRects(tail, last, n - 1, bpp) ==> ValidRects([r] + tail, last, n, bpp)
  {
    hide Rect.Encode, Rect.Valid;
    assert ([r] + tail)[1..] == tail;
  }

  lemma OnlyLast(l: LastRect)
    ensures EncodeRects([], Some(l)) == l.Encode() && EncodeRects([], None) == []
  {
    hide LastRect.Encode;
  }

  lemma {:induction false} RectsExplained(s: seq<Byte>, p: nat, n: nat, bpp: nat)
    returns (rects: seq<Rect>, last: Option<LastRect>)
    requires p <= |s| && RectsEnd(s, p, n, bpp).Ok?
    ensures ValidRects(rects, last, n, bpp)
    ensures EncodeRects(rects, last) == s[p..RectsEnd(s, p, n, bpp).value]
    decreases n
  {
    hide RectAt, Rect.Encode, Rect.Valid, LastRect.Encode, EncodeRects;
    rects, last := [], None;
    if n == 0 {
      OnlyLast(LastRect(0, 0, 0, 0));
    } else if RectAt(s, p, bpp).value.Last? {
      var l := LastExplained(s, p, bpp);
      OnlyLast(l);
      last := Some(l);
    } else {
      var r := RectExplained(s, p, bpp);
      var next := RectAt(s, p, bpp).value.at;
      var tail;
      tail, last := RectsExplained(s, next, n - 1, bpp);
      rects := [r] + tail;
      FirstRect(r, tail, last, n, bpp);
      Join(s, p, next, RectsEnd(s, p, n, bpp).value);
    }
  }

  /** `g` prints what the parser framed at the front of `s`. */
  ghost predicate Prints(g: Packet, s: seq<Byte>, bpp: nat) {
    g.Valid(bpp) && Recognizable(g, s) && MessageEnd(s, bpp).Ok? && g.Encode() == s[..MessageEnd(s, bpp).value]
  }

  lemma CutTextBytes(s: seq<Byte>, end: nat)
    requires 8 <= end <= |s| && s[0] == 3
    ensures [3] + s[1..4] + BeI32(I32Of(s, 4)) + s[8..end] == s[..end]
  {
    hide BeI32, I32Of;
    I32RoundTrip(s, 4);
    Single(s, 0);
    Join(s, 0, 1, 4);
    Join(s, 0, 4, 8);
    Join(s, 0, 8, end);
  }

  lemma CutTextExplained(s: seq<Byte>, bpp: nat) returns (g: Packet)
    requires CutTextEnd(s).Ok? && s[0] == 3
    ensures Prints(g, s, bpp)
  {
    hide BeI32, I32Of, Packet.Encode, UpdateEnd, ColorMapEnd, FenceEnd;
    var end := CutTextEnd(s).value;
    var n := I32Of(s, 4);
    var text := s[8..end];
    assert n >= 0 ==> |text| == n <= MAX_MESSAGE_LENGTH;
    assert n < 0 ==> |text| == -n <= MAX_MESSAGE_LENGTH && |s| >= 12;
    CutTextBytes(s, end);
    if n >= 0 {
      g := CutText(s[1..4], text);
      CutTextPrint(g);
    } else {
      g := ExtendedCutText(s[1..4], text);
      ExtendedPrint(g);
    }
  }

  lemma CutTextPrint(g: Packet)
    requires g.CutText? && |g.text| <= MAX_MESSAGE_LENGTH
    ensures g.Encode() == [3] + g.padding + BeI32(|g.text|) + g.text
  {
    hide Be32;
    assert |g.text| % 0x8000_0000 == |g.text|;
  }

  lemma ExtendedPrint(g: Packet)
    requires g.ExtendedCutText? && |g.data| <= MAX_MESSAGE_LENGTH
    ensures g.Encode() == [3] + g.padding + BeI32(-|g.data|) + g.data
  {
    hide BeI32;
    assert |g.data| % 0x8000_0000 == |g.data|;
  }

  lemma UpdateExplained(s: seq<Byte>, bpp: nat) returns (g: Packet)
    requires UpdateEnd(s, bpp).Ok? && s[0] == 0
    ensures Prints(g, s, bpp)
  {
    hide CutTextEnd, ColorMapEnd, FenceEnd, RectsEnd, EncodeRects, ValidRects;
    var end := UpdateEnd(s, bpp).value;
    var rects, last := RectsExplained(s, 4, U16Of(s, 2), bpp);
    g := Update(s[1], U16Of(s, 2), rects, last);
    U16RoundTrip(s, 2);
    Pair(s, 0);
    Join(s, 0, 2, 4);
    Join(s, 0, 4, end);
  }

  lemma ColorMapExplained(s: seq<Byte>, bpp: nat) returns (g: Packet)
    requires ColorMapEnd(s).Ok? && s[0] == 1
    ensures Prints(g, s, bpp)
  {
    hide UpdateEnd, CutTextEnd, FenceEnd, Packet.Encode, Be16, U16Of;
    var end := ColorMapEnd(s).value;
    g := ColorMap(s[1], U16Of(s, 2), s[6..end]);
    assert |g.colors| == 6 * U16Of(s, 4);
    ColorMapPrint(g);
    ColorMapBytes(s, end);
  }

  lemma ColorMapBytes(s: seq<Byte>, end: nat)
    requires 6 <= end <= |s| && s[0] == 1
    ensures [1, s[1]] + Be16(U16Of(s, 2)) + Be16(U16Of(s, 4)) + s[6..end] == s[..end]
  {
    hide Be16, U16Of;
    U16RoundTrip(s, 2);
    U16RoundTrip(s, 4);
    Pair(s, 0);
    Join(s, 0, 2, 4);
    Join(s, 0, 4, 6);
    Join(s, 0, 6, end);
  }

  lemma FenceExplained(s: seq<Byte>, bpp: nat) returns (g: Packet)
    requires FenceEnd(s).Ok? && s[0] == 248
    ensures Prints(g, s, bpp)
  {
    hide UpdateEnd, CutTextEnd, ColorMapEnd, Packet.Encode;
    var end := FenceEnd(s).value;
    g := Fence(s[1..4], s[4..8], s[9..end]);
    FencePrint(g);
    FenceBytes(s, end);
  }

  lemma FenceBytes(s: seq<Byte>, end: nat)
    requires 9 <= end <= |s| && s[0] == 248
    ensures [248] + s[1..4] + s[4..8] + [s[8]] + s[9..end] == s[..end]
  {
    Single(s, 0);
    Single(s, 8);
    Join(s, 0, 1, 4);
    Join(s, 0, 4, 8);
    Join(s, 0, 8, 9);
    Join(s, 0, 9, end);
  }

  /** Soundness: what the parser frames is a printed message. */
  lemma ServerExplains(s: seq<Byte>, bpp: nat) returns (g: Packet)
    requires ParseServer(s, bpp).Ok?
    ensures Prints(g, s, bpp)
  {
    hide UpdateEnd, ColorMapEnd, CutTextEnd, FenceEnd, ValidRects, EncodeRects;
    if s[0] == 0 {
      g := UpdateExplained(s, bpp);
    } else if s[0] == 1 {
      g := ColorMapExplained(s, bpp);
    } else if s[0] == 2 {
      g := RingBell;
      assert Prints(g, s, bpp);
    } else if s[0] == 3 {
      g := CutTextExplained(s, bpp);
    } else if s[0] == 150 {
      g := EndContinuousUpdates;
      assert Prints(g, s, bpp);
    } else {
      g := FenceExplained(s, bpp);
    }
  }

  /** The parser accepts a payload exactly when it is a printed message at the front of the buffer. */
  lemma ServerGrammar(s: seq<Byte>, m: Message, bpp: nat)
    ensures ParseServer(s, bpp) == Ok(m) <==>
            exists g: Packet :: g.Valid(bpp) && g.Encode() <= s && Recognizable(g, s) && m == g.Message()
  {
    hide Packet.Valid, MessageEnd;
    if ParseServer(s, bpp) == Ok(m) {
      var g := ServerExplains(s, bpp);
      assert g.Encode() <= s;
      ServerAccepts(g, bpp, s);
    }
    forall g: Packet | g.Valid(bpp) && g.Encode() <= s && Recognizable(g, s)
      ensures ParseServer(s, bpp) == Ok(g.Message())
    {
      ServerAccepts(g, bpp, s);
    }
  }

  /** No printed message is the beginning of a different one: the stream can be cut in one way only. */
  lemma ServerUnambiguous(g: Packet, h: Packet, bpp: nat, s: seq<Byte>)
    requires g.Valid(bpp) && h.Valid(bpp) && g.Encode() <= s && h.Encode() <= s
    ensures g.Encode() == h.Encode()
  {
    var t := s + seq(12, i => 0);
    ServerAccepts(g, bpp, t);
    ServerAccepts(h, bpp, t);
  }
}
