/**
 The wire grammar of client messages, written as a printer of their fields, and the proof that the parser
 accepts exactly what it prints and reads the same fields: RFC 6143 sections 7.5.1 to 7.5.6, with the fence,
 continuous-updates, desktop-size and QEMU extensions and the audio commands of README.md:88-169. The
 reductions modulo a power of two keep the printer total; on valid commands they change nothing.
 */
module ClientGrammar {
  import opened Bytes
  import opened Io
  import opened ClientParser

  /** RFC 6143 section 7.4. */
  datatype Format = Format(
    bitsPerPixel: Byte,
    depth: Byte,
    bigEndian: Byte,
    trueColor: Byte,
    redMax: U16,
    greenMax: U16,
    blueMax: U16,
    redShift: Byte,
    greenShift: Byte,
    blueShift: Byte)
  {
    ghost function Encode(): (e: seq<Byte>)
      ensures |e| == 13
    {
      [bitsPerPixel, depth, bigEndian, trueColor] + Be16(redMax) + Be16(greenMax) + Be16(blueMax)
      + [redShift, greenShift, blueShift]
    }
  }

  datatype Command =
    | ChangeFormat(pad: seq<Byte>, format: Format, tail: seq<Byte>)
    | Encodings(fill: Byte, list: seq<int>)
    | UpdateRequest(incremental: Byte, x: U16, y: U16, w: U16, h: U16)
    | Key(down: Byte, pad: seq<Byte>, key: nat)
    | Pointer(buttons: Byte, x: U16, y: U16)
    | CutText(pad: seq<Byte>, text: seq<Byte>)
    | ExtendedCutText(pad: seq<Byte>, text: seq<Byte>)
    | ContinuousUpdates(enable: Byte, x: U16, y: U16, w: U16, h: U16)
    | Fence(pad: seq<Byte>, flags: seq<Byte>, text: seq<Byte>)
    | DesktopSize(fill: Byte, w: U16, h: U16, more: Byte, screens: seq<Byte>)
    | ExtendedKey(data: seq<Byte>)
    | Start(flag: Byte, channels: Byte, codec: U16, kbps: U16)
    | OneFrame
    | Updates
  {
    ghost predicate Valid() {
      match this
      case ChangeFormat(pad, _, tail) => |pad| == 3 && |tail| == 3
      case Encodings(_, list) => |list| < 0x1_0000 && forall i | 0 <= i < |list| :: IsI32(list[i])
      case Key(_, pad, key) => |pad| == 2 && key < 0x1_0000_0000
      case CutText(pad, text) => |pad| == 3 && |text| <= 0x40_0000
      case ExtendedCutText(pad, text) => |pad| == 3 && 0 < |text| <= 0x40_0000
      case Fence(pad, flags, text) => |pad| == 3 && |flags| == 4 && |text| < 256
      case DesktopSize(_, _, _, _, screens) => |screens| <= 16 * 255 && |screens| % 16 == 0
      case ExtendedKey(data) => |data| == 10
      case _ => true
    }

    ghost function Encode(): (e: seq<Byte>) {
      match this
      case ChangeFormat(pad, format, tail) => [0] + pad + format.Encode() + tail
      case Encodings(fill, list) => [2, fill] + Be16(|list| % 0x1_0000) + EncodeList(list)
      case UpdateRequest(i, x, y, w, h) => [3, i] + (Be16(x) + Be16(y) + Be16(w) + Be16(h))
      case Key(down, pad, key) => [4, down] + pad + Be32(key % 0x1_0000_0000)
      case Pointer(buttons, x, y) => [5, buttons] + (Be16(x) + Be16(y))
      case CutText(pad, text) => [6] + pad + BeI32(|text| % 0x8000_0000) + text
      case ExtendedCutText(pad, text) => [6] + pad + BeI32(-(|text| % 0x8000_0000)) + text
      case ContinuousUpdates(enable, x, y, w, h) => [150, enable] + (Be16(x) + Be16(y) + Be16(w) + Be16(h))
      case Fence(pad, flags, text) => [248] + pad + flags + [|text| % 256] + text
      case DesktopSize(fill, w, h, more, screens) =>
        [251, fill] + (Be16(w) + Be16(h)) + [|screens| / 16 % 256, more] + screens
      case ExtendedKey(data) => [255, 0] + data
      case Start(flag, channels, codec, kbps) => [245, 0] + Be16(6) + [flag, channels] + (Be16(codec) + Be16(kbps))
      case OneFrame => [245, 1] + Be16(0)
      case Updates => [245, 2] + Be16(0)
    }

    /** The message it is. */
    ghost function Message(): (m: Message) {
      match this
      case ChangeFormat(_, _, _) => SetPixelFormat(Encode())
      case Encodings(_, _) => SetEncodings(Encode())
      case UpdateRequest(_, _, _, _, _) => FramebufferUpdateRequest(Encode())
      case Key(_, _, _) => KeyEvent(Encode())
      case Pointer(_, _, _) => PointerEvent(Encode())
      case CutText(_, _) => ClientCutText(Encode())
      case ExtendedCutText(_, _) => ClientCutText(Encode())
      case ContinuousUpdates(_, _, _, _, _) => EnableContinuousUpdates(Encode())
      case Fence(_, _, _) => ClientFence(Encode())
      case DesktopSize(_, _, _, _, _) => SetDesktopSize(Encode())
      case ExtendedKey(_) => QemuClientMessage(Encode())
      case Start(flag, channels, codec, kbps) => StartEncoder(Encode(), flag != 0, channels, codec, kbps)
      case OneFrame => FrameRequest(Encode())
      case Updates => StartContinuousUpdates(Encode())
    }
  }

  ghost predicate IsI32(n: int) { -0x8000_0000 <= n < 0x8000_0000 }

  ghost function EncodeList(list: seq<int>): (e: seq<Byte>)
    ensures |e| == 4 * |list|
  {
    if list == [] then [] else (if IsI32(list[0]) then BeI32(list[0]) else [0, 0, 0, 0]) + EncodeList(list[1..])
  }

  /** An extended cut text shows the four bytes after its length before it is recognized. */
  ghost predicate Recognizable(g: Command, s: seq<Byte>) { g.ExtendedCutText? ==> |s| >= 12 }

  // What is printed is a message with these fields.

  lemma FormatPrinted(g: Command)
    requires g.ChangeFormat? && g.Valid()
    ensures WellFormed(g.Encode()) && MessageOf(g.Encode()) == g.Message()
    ensures g.Encode()[4] == g.format.bitsPerPixel
  {
    hide Format.Encode, Be16;
    var f := g.format.Encode();
    assert g.Encode()[4] == f[0];
    assert f[0] == g.format.bitsPerPixel by { FormatFirst(g.format); }
  }

  lemma FormatFirst(f: Format)
    ensures f.Encode()[0] == f.bitsPerPixel
  {
  }

  lemma EncodingsPrinted(g: Command)
    requires g.Encodings? && g.Valid()
    ensures WellFormed(g.Encode()) && MessageOf(g.Encode()) == g.Message()
  {
    hide EncodeList, Be16, U16Of;
    var n: U16 := |g.list|;
    var e := g.Encode();
    assert e[..4] == [2, g.fill] + Be16(n);
    assert e[2..4] == Be16(n);
    ReadsBackU16(e, 2, n);
  }

  lemma TextPrinted(g: Command)
    requires (g.CutText? || g.ExtendedCutText?) && g.Valid()
    ensures WellFormed(g.Encode()) && MessageOf(g.Encode()) == g.Message()
    ensures g.Encode()[0] == 6 && (ShortExtended(g.Encode()) ==> g.ExtendedCutText?)
  {
    hide BeI32, I32Of;
    var n := if g.CutText? then |g.text| else -|g.text|;
    assert |g.text| % 0x8000_0000 == |g.text|;
    var e := g.Encode();
    assert e == [6] + g.pad + BeI32(n) + g.text;
    assert e[4..8] == BeI32(n);
    ReadsBackI32(e, 4, n);
  }

  lemma StartPrinted(g: Command)
    requires g.Start?
    ensures WellFormed(g.Encode()) && MessageOf(g.Encode()) == g.Message()
  {
    hide Be16, U16Of;
    var e := g.Encode();
    assert e[2..4] == Be16(6) && e[6..8] == Be16(g.codec) && e[8..10] == Be16(g.kbps);
    assert e[4] == g.flag && e[5] == g.channels;
    ReadsBackU16(e, 6, g.codec);
    ReadsBackU16(e, 8, g.kbps);
  }

  lemma RectanglePrinted(g: Command)
    requires g.UpdateRequest? || g.ContinuousUpdates? || g.Pointer?
    ensures WellFormed(g.Encode()) && MessageOf(g.Encode()) == g.Message()
  {
    hide Be16;
  }

  lemma CountedPrinted(g: Command)
    requires (g.Fence? || g.DesktopSize?) && g.Valid()
    ensures WellFormed(g.Encode()) && MessageOf(g.Encode()) == g.Message()
  {
    hide Be16;
    var e := g.Encode();
    if g.Fence? {
      assert e[8] == |g.text|;
    } else {
      assert e[6] == |g.screens| / 16;
    }
  }

  lemma OtherPrinted(g: Command)
    requires (g.Key? || g.ExtendedKey? || g.OneFrame? || g.Updates?) && g.Valid()
    ensures WellFormed(g.Encode()) && MessageOf(g.Encode()) == g.Message()
  {
    hide Be32;
    if g.OneFrame? || g.Updates? { assert g.Encode()[2..] == Be16(0); }
  }

  lemma Printed(g: Command)
    requires g.Valid()
    ensures WellFormed(g.Encode()) && MessageOf(g.Encode()) == g.Message()
    ensures g.Encode()[0] == 6 && ShortExtended(g.Encode()) ==> g.ExtendedCutText?
  {
    hide Command.Message, MessageOf, WellFormed, ShortExtended;
    match g
    case ChangeFormat(_, _, _) => FormatPrinted(g);
    case Encodings(_, _) => EncodingsPrinted(g);
    case CutText(_, _) => TextPrinted(g);
    case ExtendedCutText(_, _) => TextPrinted(g);
    case Start(_, _, _, _) => StartPrinted(g);
    case UpdateRequest(_, _, _, _, _) => RectanglePrinted(g);
    case ContinuousUpdates(_, _, _, _, _) => RectanglePrinted(g);
    case Pointer(_, _, _) => RectanglePrinted(g);
    case Fence(_, _, _) => CountedPrinted(g);
    case DesktopSize(_, _, _, _, _) => CountedPrinted(g);
    case _ => OtherPrinted(g);
  }

  /** Completeness: a printed command in front of any bytes is parsed as the message with its fields. */
  lemma ClientAccepts(g: Command, s: seq<Byte>)
    requires g.Valid() && g.Encode() <= s && Recognizable(g, s)
    ensures ParseClient(s) == Ok(g.Message())
  {
    hide MessageOf, WellFormed, ShortExtended, ParseClient, Command.Encode;
    Printed(g);
    ClientParser.ClientGrammar(s, g.Message());
  }

  // Every message is printed.

  ghost function ReadList(d: seq<Byte>, p: nat): (list: seq<int>)
    requires p <= |d| && (|d| - p) % 4 == 0
    ensures |list| == (|d| - p) / 4 && forall i | 0 <= i < |list| :: IsI32(list[i])
    decreases |d| - p
  {
    if p == |d| then [] else [I32Of(d, p)] + ReadList(d, p + 4)
  }

  lemma {:induction false} ListRead(d: seq<Byte>, p: nat)
    requires p <= |d| && (|d| - p) % 4 == 0
    ensures EncodeList(ReadList(d, p)) == d[p..]
    decreases |d| - p
  {
    hide BeI32, I32Of;
    if p < |d| {
      ListRead(d, p + 4);
      I32RoundTrip(d, p);
      var list := ReadList(d, p);
      assert list[1..] == ReadList(d, p + 4);
      Join(d, p, p + 4, |d|);
    }
  }

  lemma FormatRead(d: seq<Byte>) returns (g: Command)
    requires |d| == 20 && d[0] == 0
    ensures g.Valid() && g.Encode() == d
  {
    hide Be16, U16Of;
    var f := Format(d[4], d[5], d[6], d[7], U16Of(d, 8), U16Of(d, 10), U16Of(d, 12), d[14], d[15], d[16]);
    g := ChangeFormat(d[1..4], f, d[17..]);
    U16RoundTrip(d, 8);
    U16RoundTrip(d, 10);
    U16RoundTrip(d, 12);
    assert [d[4], d[5], d[6], d[7]] == d[4..8] && [d[14], d[15], d[16]] == d[14..17];
    Single(d, 0);
    Join(d, 4, 8, 10);
    Join(d, 4, 10, 12);
    Join(d, 4, 12, 14);
    Join(d, 4, 14, 17);
    Join(d, 0, 1, 4);
    Join(d, 0, 4, 17);
    Join(d, 0, 17, 20);
  }

  lemma EncodingsRead(d: seq<Byte>) returns (g: Command)
    requires |d| >= 4 && d[0] == 2 && |d| == 4 + 4 * U16Of(d, 2)
    ensures g.Valid() && g.Encode() == d
  {
    hide Be16, U16Of, EncodeList, ReadList;
    var list := ReadList(d, 4);
    g := Encodings(d[1], list);
    assert |list| == U16Of(d, 2);
    ListRead(d, 4);
    U16RoundTrip(d, 2);
    Pair(d, 0);
    Join(d, 0, 2, 4);
    Join(d, 0, 4, |d|);
  }

  lemma FourRead(d: seq<Byte>, p: nat)
    requires p + 8 <= |d|
    ensures Be16(U16Of(d, p)) + Be16(U16Of(d, p + 2)) + Be16(U16Of(d, p + 4)) + Be16(U16Of(d, p + 6)) == d[p..p + 8]
  {
    hide Be16, U16Of;
    U16RoundTrip(d, p);
    U16RoundTrip(d, p + 2);
    U16RoundTrip(d, p + 4);
    U16RoundTrip(d, p + 6);
    Join(d, p, p + 2, p + 4);
    Join(d, p, p + 4, p + 6);
    Join(d, p, p + 6, p + 8);
  }

  lemma RectangleRead(d: seq<Byte>) returns (g: Command)
    requires |d| == 10 && (d[0] == 3 || d[0] == 150)
    ensures g.Valid() && g.Encode() == d
  {
    hide Be16, U16Of;
    var x, y, w, h := U16Of(d, 2), U16Of(d, 4), U16Of(d, 6), U16Of(d, 8);
    g := if d[0] == 3 then UpdateRequest(d[1], x, y, w, h) else ContinuousUpdates(d[1], x, y, w, h);
    FourRead(d, 2);
    Pair(d, 0);
    Join(d, 0, 2, 10);
  }

  lemma KeyRead(d: seq<Byte>) returns (g: Command)
    requires |d| == 8 && d[0] == 4
    ensures g.Valid() && g.Encode() == d
  {
    hide Be32, U32Of;
    g := Key(d[1], d[2..4], U32Of(d, 4));
    Pair(d, 0);
    U32RoundTrip(d, 4);
    Join(d, 0, 2, 4);
    Join(d, 0, 4, 8);
  }

  lemma PointerRead(d: seq<Byte>) returns (g: Command)
    requires |d| == 6 && d[0] == 5
    ensures g.Valid() && g.Encode() == d
  {
    hide Be16, U16Of;
    g := Pointer(d[1], U16Of(d, 2), U16Of(d, 4));
    Pair(d, 0);
    U16RoundTrip(d, 2);
    U16RoundTrip(d, 4);
    Join(d, 2, 4, 6);
    Join(d, 0, 2, 6);
  }

  lemma TextRead(d: seq<Byte>) returns (g: Command)
    requires WellFormed(d) && d[0] == 6
    ensures g.Valid() && g.Encode() == d
    ensures g.ExtendedCutText? ==> |d| >= 12 || ShortExtended(d)
  {
    hide BeI32, I32Of;
    var n, text := I32Of(d, 4), d[8..];
    assert |text| % 0x8000_0000 == |text|;
    g := if n >= 0 then CutText(d[1..4], text) else ExtendedCutText(d[1..4], text);
    I32RoundTrip(d, 4);
    Single(d, 0);
    Join(d, 0, 1, 4);
    Join(d, 0, 4, 8);
    Join(d, 0, 8, |d|);
  }

  lemma StartRead(d: seq<Byte>) returns (g: Command)
    requires |d| == 10 && d[0] == 245 && d[1] == 0 && d[2..4] == Be16(6)
    ensures g.Valid() && g.Encode() == d
  {
    hide Be16, U16Of;
    g := Start(d[4], d[5], U16Of(d, 6), U16Of(d, 8));
    Pair(d, 0);
    Pair(d, 4);
    U16RoundTrip(d, 6);
    U16RoundTrip(d, 8);
    Join(d, 0, 2, 4);
    Join(d, 0, 4, 6);
    Join(d, 6, 8, 10);
    Join(d, 0, 6, 10);
  }

  lemma AudioRead(d: seq<Byte>) returns (g: Command)
    requires WellFormed(d) && d[0] == 245
    ensures g.Valid() && g.Encode() == d
  {
    hide Be16;
    if d[1] == 0 {
      g := StartRead(d);
    } else {
      g := if d[1] == 1 then OneFrame else Updates;
      Pair(d, 0);
      Join(d, 0, 2, |d|);
    }
  }

  lemma FenceRead(d: seq<Byte>) returns (g: Command)
    requires |d| >= 9 && d[0] == 248 && |d| == 9 + d[8] as int
    ensures g.Valid() && g.Encode() == d
  {
    g := Fence(d[1..4], d[4..8], d[9..]);
    Single(d, 0);
    Single(d, 8);
    Join(d, 0, 1, 4);
    Join(d, 0, 4, 8);
    Join(d, 0, 8, 9);
    Join(d, 0, 9, |d|);
  }

  lemma DesktopRead(d: seq<Byte>) returns (g: Command)
    requires |d| >= 8 && d[0] == 251 && |d| == 8 + 16 * (d[6] as int)
    ensures g.Valid() && g.Encode() == d
  {
    hide Be16, U16Of;
    var screens := d[8..];
    assert |screens| / 16 % 256 == d[6];
    g := DesktopSize(d[1], U16Of(d, 2), U16Of(d, 4), d[7], screens);
    DesktopBytes(d);
  }

  lemma DesktopBytes(d: seq<Byte>)
    requires |d| >= 8 && d[0] == 251
    ensures [251, d[1]] + (Be16(U16Of(d, 2)) + Be16(U16Of(d, 4))) + [d[6], d[7]] + d[8..] == d
  {
    hide Be16, U16Of;
    Pair(d, 0);
    Pair(d, 6);
    U16RoundTrip(d, 2);
    U16RoundTrip(d, 4);
    Join(d, 2, 4, 6);
    Join(d, 0, 2, 6);
    Join(d, 0, 6, 8);
    Join(d, 0, 8, |d|);
  }

  lemma WellFormedPrinted(d: seq<Byte>) returns (g: Command)
    requires WellFormed(d)
    ensures g.Valid() && g.Encode() == d && (g.ExtendedCutText? ==> |d| >= 12 || (d[0] == 6 && ShortExtended(d)))
  {
    hide Command.Encode, Command.Valid, ShortExtended, U16Of, I32Of;
    if d[0] == 0 {
      g := FormatRead(d);
    } else if d[0] == 2 {
      g := EncodingsRead(d);
    } else if d[0] == 3 || d[0] == 150 {
      g := RectangleRead(d);
    } else if d[0] == 4 {
      g := KeyRead(d);
    } else if d[0] == 5 {
      g := PointerRead(d);
    } else if d[0] == 6 {
      g := TextRead(d);
    } else if d[0] == 245 {
      g := AudioRead(d);
    } else if d[0] == 248 {
      g := FenceRead(d);
    } else if d[0] == 251 {
      g := DesktopRead(d);
    } else {
      g := ExtendedKey(d[2..]);
      Extended(d);
    }
    if g.ExtendedCutText? && d[0] != 6 { FirstByte(g); }
  }

  lemma Extended(d: seq<Byte>)
    requires |d| == 12 && d[0] == 255 && d[1] == 0
    ensures ExtendedKey(d[2..]).Valid() && ExtendedKey(d[2..]).Encode() == d
  {
    Pair(d, 0);
    Join(d, 0, 2, 12);
  }

  lemma FirstByte(g: Command)
    requires g.ExtendedCutText?
    ensures g.Encode() != [] && g.Encode()[0] == 6
  {
  }

  /**
   Soundness and completeness: the parser returns a message if and only if it is that of a command printed
   at the front of the buffer, with its fields.
   */
  lemma ClientGrammar(s: seq<Byte>, m: Message)
    ensures ParseClient(s) == Ok(m) <==>
            exists g: Command :: g.Valid() && g.Encode() <= s && Recognizable(g, s) && m == g.Message()
  {
    hide ParseClient, WellFormed, MessageOf, Command.Encode, Command.Valid, Command.Message;
    if ParseClient(s) == Ok(m) {
      ClientParser.ClientGrammar(s, m);
      var g := WellFormedPrinted(m.payload);
      ClientAccepts(g, s);
      assert m == g.Message();
    }
    forall g: Command | g.Valid() && g.Encode() <= s && Recognizable(g, s) ensures ParseClient(s) == Ok(g.Message()) {
      ClientAccepts(g, s);
    }
  }
}
