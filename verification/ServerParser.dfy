/** src/messages/server.rs: framing of the messages a VNC server sends. */
module ServerParser {
  import opened Bytes
  import opened Io

  datatype Message =
    | FramebufferUpdate(payload: seq<Byte>)
    | SetColorMapEntries(payload: seq<Byte>)
    | Bell(payload: seq<Byte>)
    | ServerCutText(payload: seq<Byte>)
    | EndOfContinuousUpdates(payload: seq<Byte>)
    | ServerFence(payload: seq<Byte>)
    | ReplitAudioServerMessage(payload: seq<Byte>)
  {
    function IntoData(): (d: seq<Byte>) { payload }

    function Len(): (n: nat) { |payload| }
  }

  const RAW := 0
  const COPY_RECT := 1
  const TIGHT := 7
  const ZRLE := 16
  const LAST_RECT := -224
  const CURSOR := -239
  const QEMU_EXTENDED_KEY := -258
  const EXTENDED_DESKTOP_SIZE := -308
  const VMWARE_CURSOR := 0x574d5664

  function Pixels(width: nat, height: nat, each: nat): (n: nat) { width * height * each }

  function DivCeil8(n: nat): (r: nat) { (n + 7) / 8 }

  /** Rows padded to whole bytes. */
  function Rows(width: nat, height: nat): (n: nat) { DivCeil8(width) * height }

  function PaletteSize(width: nat, height: nat, colors: nat): (n: nat) {
    Rows(width * (if colors <= 2 then 1 else 8), height)
  }

  /** A compact length and as many bytes. */
  function CompressedAt(s: seq<Byte>, p: nat): (r: Result<nat>)
    requires p <= |s|
    ensures r.Ok? ==> p <= r.value <= |s|
  {
    var len :- CompactAt(s, p);
    SkipAt(s, len.next, len.value)
  }

  /** Tight pixel data: sent as is below twelve bytes. */
  function TightDataAt(s: seq<Byte>, p: nat, size: nat): (r: Result<nat>)
    requires p <= |s|
    ensures r.Ok? ==> p <= r.value <= |s|
  {
    if size < 12 then SkipAt(s, p, size) else CompressedAt(s, p)
  }

  function FilterAt(s: seq<Byte>, p: nat, explicit: bool): (r: Result<Taken<Byte>>)
    requires p <= |s|
    ensures r.Ok? ==> p <= r.value.next <= |s|
  {
    if !explicit then Ok(Taken(0, p))
    else
      var f :- U8At(s, p);
      Ok(Taken(f, p + 1))
  }

  /** What follows the filter: nothing more for a copy, the colors of a palette. */
  function FilteredAt(s: seq<Byte>, p: nat, filter: Byte, width: nat, height: nat): (r: Result<nat>)
    requires p <= |s|
    ensures r.Ok? ==> p <= r.value <= |s|
  {
    if filter == 0 then TightDataAt(s, p, Pixels(width, height, 3))
    else if filter == 1 then
      var last :- U8At(s, p);
      var data :- SkipAt(s, p + 1, 3 * (last + 1));
      TightDataAt(s, data, PaletteSize(width, height, last + 1))
    else Err(Other)
  }

  function TightAt(s: seq<Byte>, p: nat, width: nat, height: nat): (r: Result<nat>)
    requires p <= |s|
    ensures r.Ok? ==> p <= r.value <= |s|
  {
    var control :- U8At(s, p);
    var ctl := control / 16;
    if ctl == 8 then SkipAt(s, p + 1, 3)
    else if ctl == 9 then CompressedAt(s, p + 1)
    else
      var filter :- FilterAt(s, p + 1, ctl / 4 % 2 == 1);
      FilteredAt(s, filter.next, filter.value, width, height)
  }

  function VmwareCursorAt(s: seq<Byte>, p: nat, width: nat, height: nat, bpp: nat): (r: Result<nat>)
    requires p <= |s|
    ensures r.Ok? ==> p <= r.value <= |s|
  {
    var kind :- U8At(s, p);
    if kind == 0 then SkipAt(s, p + 1, 1 + 2 * Pixels(width, height, bpp))
    else if kind == 1 then SkipAt(s, p + 1, 1 + Pixels(width, height, 4))
    else Err(Other)
  }

  function ZrleAt(s: seq<Byte>, p: nat): (r: Result<nat>)
    requires p <= |s|
    ensures r.Ok? ==> p <= r.value <= |s|
  {
    var length :- U32At(s, p);
    var _ :- CheckMessageLength(length);
    SkipAt(s, p + 4, length)
  }

  function CursorAt(s: seq<Byte>, p: nat, width: nat, height: nat, bpp: nat): (r: Result<nat>)
    requires p <= |s|
    ensures r.Ok? ==> p <= r.value <= |s|
  {
    var mask :- SkipAt(s, p, Pixels(width, height, bpp));
    SkipAt(s, mask, Rows(width, height))
  }

  function ScreensAt(s: seq<Byte>, p: nat): (r: Result<nat>)
    requires p <= |s|
    ensures r.Ok? ==> p <= r.value <= |s|
  {
    var screens :- U8At(s, p);
    SkipAt(s, p + 1, 3 + 16 * screens)
  }

  /** Where the body of a rectangle of the given encoding ends. */
  function BodyAt(s: seq<Byte>, p: nat, encoding: int, width: nat, height: nat, bpp: nat): (r: Result<nat>)
    requires p <= |s|
    ensures r.Ok? ==> p <= r.value <= |s|
  {
    if encoding == RAW then SkipAt(s, p, Pixels(width, height, bpp))
    else if encoding == COPY_RECT then SkipAt(s, p, 4)
    else if encoding == TIGHT then TightAt(s, p, width, height)
    else if encoding == ZRLE then ZrleAt(s, p)
    else if encoding == CURSOR then CursorAt(s, p, width, height, bpp)
    else if encoding == QEMU_EXTENDED_KEY then Ok(p)
    else if encoding == EXTENDED_DESKTOP_SIZE then ScreensAt(s, p)
    else if encoding == VMWARE_CURSOR then VmwareCursorAt(s, p, width, height, bpp)
    else Err(Other)
  }

  /** After a rectangle the list goes on, or a LastRect has cut it short. */
  datatype Advance = Next(at: nat) | Last(at: nat)

  function RectAt(s: seq<Byte>, p: nat, bpp: nat): (r: Result<Advance>)
    requires p <= |s|
    ensures r.Ok? ==> p + 12 <= r.value.at <= |s|
  {
    if |s| < p + 12 then Err(Incomplete)
    else if I32Of(s, p + 8) == LAST_RECT then Ok(Last(p + 12))
    else
      var end :- BodyAt(s, p + 12, I32Of(s, p + 8), U16Of(s, p + 4), U16Of(s, p + 6), bpp);
      Ok(Next(end))
  }

  /** Where a list of at most `n` rectangles ends. */
  function RectsEnd(s: seq<Byte>, p: nat, n: nat, bpp: nat): (r: Result<nat>)
    requires p <= |s|
    ensures r.Ok? ==> p <= r.value <= |s|
    decreases n
  {
    if n == 0 then Ok(p)
    else
      var rect :- RectAt(s, p, bpp);
      match rect
      case Last(at) => Ok(at)
      case Next(at) => RectsEnd(s, at, n - 1, bpp)
  }

  function UpdateEnd(s: seq<Byte>, bpp: nat): (r: Result<nat>)
    ensures r.Ok? ==> 4 <= r.value <= |s|
  {
    if |s| < 4 then Err(Incomplete) else RectsEnd(s, 4, U16Of(s, 2), bpp)
  }

  function ColorMapEnd(s: seq<Byte>): (r: Result<nat>)
    ensures r.Ok? ==> 6 <= r.value <= |s|
  {
    if |s| < 6 then Err(Incomplete) else SkipAt(s, 6, 6 * U16Of(s, 4))
  }

  function MessageEnd(s: seq<Byte>, bpp: nat): (r: Result<nat>)
    ensures r.Ok? ==> 0 < r.value <= |s|
  {
    var id :- U8At(s, 0);
    if id == 0 then UpdateEnd(s, bpp)
    else if id == 1 then ColorMapEnd(s)
    else if id == 2 || id == 150 then Ok(1)
    else if id == 3 then CutTextEnd(s)
    else if id == 248 then FenceEnd(s)
    else Err(Other)
  }

  /** The message a payload is, by its first byte. */
  function MessageOf(payload: seq<Byte>): (m: Message)
    requires payload != []
    ensures m.payload == payload
  {
    match payload[0]
    case 0 => FramebufferUpdate(payload)
    case 1 => SetColorMapEntries(payload)
    case 2 => Bell(payload)
    case 3 => ServerCutText(payload)
    case 150 => EndOfContinuousUpdates(payload)
    case 248 => ServerFence(payload)
    case _ => ReplitAudioServerMessage(payload)
  }

  /** The outcome of parsing the front of a buffer. */
  function ParseServer(s: seq<Byte>, bpp: nat): (r: Result<Message>)
    ensures r.Ok? ==> r.value.payload <= s && r.value.Len() > 0
  {
    var end :- MessageEnd(s, bpp);
    Ok(MessageOf(s[..end]))
  }

  /** The tail of the two Tight filters. */
  method ParseTightData(src: Cursor, uncompressed: nat) returns (r: Result<()>)
    requires src.Valid()
    modifies src
    ensures src.Valid()
    ensures TightDataAt(src.data, old(src.pos), uncompressed) == if r.Ok? then Ok(src.pos) else Err(r.error)
  {
    if uncompressed < 12 {
      r := src.Skip(uncompressed);
    } else {
      var len :- src.GetCompact();
      r := src.Skip(len);
    }
  }

  /** The copy and palette filters. `debug` stands for the log level that makes the log arguments be evaluated. */
  method ParseFiltered(src: Cursor, filter: Byte, width: nat, height: nat, debug: bool) returns (r: Result<()>)
    requires src.Valid()
    modifies src
    ensures src.Valid()
    ensures FilteredAt(src.data, old(src.pos), filter, width, height) == if r.Ok? then Ok(src.pos) else Err(r.error)
  {
    hide TightDataAt;
    if filter == 0 {
      var uncompressed := Pixels(width, height, 3);
      r := ParseTightData(src, uncompressed);
    } else if filter == 1 {
      var last: nat :- src.GetU8();
      var colors := last + 1;
      if debug { var _ :- src.Peek(3 * colors); }
      var _ :- src.Skip(3 * colors);
      var bits := if colors <= 2 then 1 else 8;
      var uncompressed := DivCeil8(width * bits) * height;
      r := ParseTightData(src, uncompressed);
    } else {
      r := Err(Other);
    }
  }

  /** A Tight rectangle. */
  method ParseTight(src: Cursor, width: nat, height: nat, debug: bool) returns (r: Result<()>)
    requires src.Valid()
    modifies src
    ensures src.Valid()
    ensures TightAt(src.data, old(src.pos), width, height) == if r.Ok? then Ok(src.pos) else Err(r.error)
  {
    hide FilteredAt, CompactAt;
    var control :- src.GetU8();
    var ctl := control / 16;
    if ctl == 8 {
      r := src.Skip(3);
    } else if ctl == 9 {
      var len :- src.GetCompact();
      r := src.Skip(len);
    } else {
      var filter := 0;
      if ctl / 4 % 2 == 1 {
        filter :- src.GetU8();
      }
      r := ParseFiltered(src, filter, width, height, debug);
    }
  }

  method ParseVmwareCursor(src: Cursor, width: nat, height: nat, bpp: nat) returns (r: Result<()>)
    requires src.Valid()
    modifies src
    ensures src.Valid()
    ensures VmwareCursorAt(src.data, old(src.pos), width, height, bpp) ==
            if r.Ok? then Ok(src.pos) else Err(r.error)
  {
    var kind :- src.GetU8();
    if kind == 0 {
      r := src.Skip(1 + 2 * Pixels(width, height, bpp));
    } else if kind == 1 {
      r := src.Skip(1 + Pixels(width, height, 4));
    } else {
      r := Err(Other);
    }
  }

  /** The match on the encoding type, LastRect apart. */
  method ParseBody(src: Cursor, encoding: int, width: nat, height: nat, bpp: nat, debug: bool)
    returns (r: Result<()>)
    requires src.Valid()
    modifies src
    ensures src.Valid()
    ensures BodyAt(src.data, old(src.pos), encoding, width, height, bpp) ==
            if r.Ok? then Ok(src.pos) else Err(r.error)
  {
    if encoding == RAW {
      r := src.Skip(Pixels(width, height, bpp));
    } else if encoding == COPY_RECT {
      r := src.Skip(4);
    } else if encoding == TIGHT {
      r := ParseTight(src, width, height, debug);
    } else if encoding == ZRLE {
      var length :- src.GetU32();
      var _ :- CheckMessageLength(length);
      r := src.Skip(length);
    } else if encoding == CURSOR {
      var _ :- src.Skip(Pixels(width, height, bpp));
      r := src.Skip(Rows(width, height));
    } else if encoding == QEMU_EXTENDED_KEY {
      r := Ok(());
    } else if encoding == EXTENDED_DESKTOP_SIZE {
      var screens: nat :- src.GetU8();
      r := src.Skip(3 + screens * 16);
    } else if encoding == VMWARE_CURSOR {
      r := ParseVmwareCursor(src, width, height, bpp);
    } else {
      r := Err(Other);
    }
  }

  /** One round of the rectangle loop; `Ok(true)` is the `break` of LastRect. */
  method ParseRectangle(src: Cursor, bpp: nat, debug: bool) returns (r: Result<bool>)
    requires src.Valid()
    modifies src
    ensures src.Valid()
    ensures RectAt(src.data, old(src.pos), bpp) ==
            if r.Err? then Err(r.error) else if r.value then Ok(Last(src.pos)) else Ok(Next(src.pos))
  {
    hide BodyAt;
    var _ :- src.GetU16();
    var _ :- src.GetU16();
    var width: nat :- src.GetU16();
    var height: nat :- src.GetU16();
    if debug { var _ :- src.Peek(4); }
    var encoding :- src.GetI32();
    if encoding == LAST_RECT {
      return Ok(true);
    }
    var body := ParseBody(src, encoding, width, height, bpp, debug);
    return body.Map(_ => false);
  }

  /** The rectangle loop of a FramebufferUpdate, and the rewind that takes its bytes. */
  method ParseUpdate(src: Cursor, bpp: nat, debug: bool) returns (r: Result<seq<Byte>>)
    requires src.Valid() && src.pos == 0 && src.data != [] && src.data[0] == 0
    modifies src
    ensures var end := MessageEnd(src.data, bpp);
            r == if end.Ok? then Ok(src.data[..end.value]) else Err(end.error)
  {
    var _ :- src.Skip(2);
    var rectangles: nat :- src.GetU16();
    var i := 0;
    while i < rectangles
      invariant src.Valid() && i <= rectangles
      invariant RectsEnd(src.data, src.pos, rectangles - i, bpp) == MessageEnd(src.data, bpp)
    {
      var last :- ParseRectangle(src, bpp, debug);
      if last { break; }
      i := i + 1;
    }
    assert MessageEnd(src.data, bpp) == Ok(src.pos);
    var len := src.pos;
    src.SetPosition(0);
    r := src.Read(len);
  }

  /** The outcome is that of `ParseServer` whether or not the debug log evaluates its peeks. */
  method Parse(src: Cursor, bpp: nat, debug: bool) returns (r: Result<Message>)
    requires src.Valid() && src.pos == 0
    modifies src
    ensures r == ParseServer(src.data, bpp)
  {
    var id :- src.PeekU8();
    if id == 0 {
      var payload := ParseUpdate(src, bpp, debug);
      return payload.Map(d => FramebufferUpdate(d));
    } else if id == 1 {
      var _ :- src.Skip(4);
      var colors: nat :- src.GetU16();
      var len := src.pos;
      src.SetPosition(0);
      var payload :- src.Read(len + colors * 6);
      return Ok(SetColorMapEntries(payload));
    } else if id == 2 {
      var payload := src.Read(1);
      return payload.Map(d => Bell(d));
    } else if id == 3 {
      var payload :- ParseCutText(src);
      return Ok(ServerCutText(payload));
    } else if id == 150 {
      var payload := src.Read(1);
      return payload.Map(d => EndOfContinuousUpdates(d));
    } else if id == 248 {
      var _ :- src.Skip(8);
      var length: nat :- src.GetU8();
      var len := src.pos;
      src.SetPosition(0);
      var payload :- src.Read(len + length);
      return Ok(ServerFence(payload));
    } else {
      return Err(Other);
    }
  }
}
