/** src/messages/client.rs: framing of the messages a VNC client sends. */
module ClientParser {
  import opened Bytes
  import opened Io

  datatype Message =
    | SetPixelFormat(payload: seq<Byte>)
    | SetEncodings(payload: seq<Byte>)
    | FramebufferUpdateRequest(payload: seq<Byte>)
    | KeyEvent(payload: seq<Byte>)
    | PointerEvent(payload: seq<Byte>)
    | ClientCutText(payload: seq<Byte>)
    | EnableContinuousUpdates(payload: seq<Byte>)
    | ClientFence(payload: seq<Byte>)
    | SetDesktopSize(payload: seq<Byte>)
    | QemuClientMessage(payload: seq<Byte>)
    | StartEncoder(payload: seq<Byte>, enabled: bool, channels: Byte, codec: U16, kbps: U16)
    | FrameRequest(payload: seq<Byte>)
    | StartContinuousUpdates(payload: seq<Byte>)
  {
    function IntoData(): (d: seq<Byte>) { payload }

    function Len(): (n: nat) { |payload| }
  }

  /** The audio messages: three submessages, each of one declared length. */
  function AudioEnd(s: seq<Byte>): (r: Result<nat>)
    ensures r.Ok? ==> 4 <= r.value <= |s|
  {
    if |s| < 4 then Err(Incomplete)
    else if s[1] == 0 then (if U16Of(s, 2) != 6 then Err(Other) else SkipAt(s, 0, 10))
    else if s[1] == 1 || s[1] == 2 then (if U16Of(s, 2) != 0 then Err(Other) else Ok(4))
    else Err(Other)
  }

  function MessageEnd(s: seq<Byte>): (r: Result<nat>)
    ensures r.Ok? ==> 4 <= r.value <= |s|
  {
    var id :- U8At(s, 0);
    if id == 0 then SkipAt(s, 0, 20)
    else if id == 2 then (if |s| < 4 then Err(Incomplete) else SkipAt(s, 4, 4 * U16Of(s, 2)))
    else if id == 3 || id == 150 then SkipAt(s, 0, 10)
    else if id == 4 then SkipAt(s, 0, 8)
    else if id == 5 then SkipAt(s, 0, 6)
    else if id == 6 then CutTextEnd(s)
    else if id == 245 then AudioEnd(s)
    else if id == 248 then FenceEnd(s)
    else if id == 251 then (if |s| < 7 then Err(Incomplete) else SkipAt(s, 0, 8 + 16 * (s[6] as int)))
    else if id == 255 then
      (if |s| < 2 then Err(Incomplete) else if s[1] == 0 then SkipAt(s, 0, 12) else Err(Other))
    else Err(Other)
  }

  /** The message a payload is; only the encoder parameters are looked into. */
  function MessageOf(d: seq<Byte>): (m: Message)
    requires |d| >= 4 && (d[0] == 245 && d[1] == 0 ==> |d| == 10)
    ensures m.payload == d
  {
    match d[0]
    case 0 => SetPixelFormat(d)
    case 2 => SetEncodings(d)
    case 3 => FramebufferUpdateRequest(d)
    case 4 => KeyEvent(d)
    case 5 => PointerEvent(d)
    case 6 => ClientCutText(d)
    case 150 => EnableContinuousUpdates(d)
    case 245 =>
      (match d[1]
       case 0 => StartEncoder(d, d[4] != 0, d[5], U16Of(d, 6), U16Of(d, 8))
       case 1 => FrameRequest(d)
       case _ => StartContinuousUpdates(d))
    case 248 => ClientFence(d)
    case 251 => SetDesktopSize(d)
    case _ => QemuClientMessage(d)
  }

  function ParseClient(s: seq<Byte>): (r: Result<Message>)
    ensures r.Ok? ==> r.value.payload <= s && r.value.Len() >= 4
  {
    var end :- MessageEnd(s);
    Ok(MessageOf(s[..end]))
  }

  method ParseStartEncoder(src: Cursor, length: nat) returns (r: Result<Message>)
    requires src.Valid() && src.pos == 4 && src.data[0] == 245 && src.data[1] == 0 && length == 6
    modifies src
    ensures r == if |src.data| >= 10 then Ok(MessageOf(src.data[..10])) else Err(Incomplete)
  {
    var enabled :- src.GetU8();
    var channels :- src.GetU8();
    var codec :- src.GetU16();
    var kbps :- src.GetU16();
    src.SetPosition(0);
    var payload := src.Read(length + 4);
    return payload.Map(d => StartEncoder(d, enabled != 0, channels, codec, kbps));
  }

  method ParseAudio(src: Cursor) returns (r: Result<Message>)
    requires src.Valid() && src.pos == 0 && src.data != [] && src.data[0] == 245
    modifies src
    ensures var end := AudioEnd(src.data);
            r == if end.Ok? then Ok(MessageOf(src.data[..end.value])) else Err(end.error)
  {
    var _ := src.Skip(1);
    var submessage :- src.GetU8();
    var length: nat :- src.GetU16();
    if submessage == 0 {
      if length != 6 { return Err(Other); }
      r := ParseStartEncoder(src, length);
    } else if submessage == 1 {
      if length != 0 { return Err(Other); }
      src.SetPosition(0);
      var payload := src.Read(length + 4);
      return payload.Map(d => FrameRequest(d));
    } else if submessage == 2 {
      if length != 0 { return Err(Other); }
      src.SetPosition(0);
      var payload := src.Read(length + 4);
      return payload.Map(d => StartContinuousUpdates(d));
    } else {
      return Err(Other);
    }
  }

  method Parse(src: Cursor) returns (r: Result<Message>)
    requires src.Valid() && src.pos == 0
    modifies src
    ensures r == ParseClient(src.data)
  {
    hide AudioEnd, CutTextEnd;
    var id :- src.PeekU8();
    if id == 0 {
      var payload :- src.Read(20);
      return Ok(SetPixelFormat(payload));
    } else if id == 2 {
      var _ :- src.Skip(2);
      var encodings: nat :- src.GetU16();
      src.SetPosition(0);
      var payload :- src.Read(4 + 4 * encodings);
      return Ok(SetEncodings(payload));
    } else if id == 3 {
      var payload :- src.Read(10);
      return Ok(FramebufferUpdateRequest(payload));
    } else if id == 4 {
      var payload :- src.Read(8);
      return Ok(KeyEvent(payload));
    } else if id == 5 {
      var payload :- src.Read(6);
      return Ok(PointerEvent(payload));
    } else if id == 6 {
      var payload :- ParseCutText(src);
      return Ok(ClientCutText(payload));
    } else if id == 150 {
      var payload :- src.Read(10);
      return Ok(EnableContinuousUpdates(payload));
    } else if id == 245 {
      r := ParseAudio(src);
    } else if id == 248 {
      var _ :- src.Skip(8);
      var length: nat :- src.GetU8();
      var len := src.pos;
      src.SetPosition(0);
      var payload :- src.Read(len + length);
      return Ok(ClientFence(payload));
    } else if id == 251 {
      var _ :- src.Skip(6);
      var screens: nat :- src.GetU8();
      var len := src.pos;
      src.SetPosition(0);
      var payload :- src.Read(len + 1 + 16 * screens);
      return Ok(SetDesktopSize(payload));
    } else if id == 255 {
      var _ := src.Skip(1);
      var submessage :- src.GetU8();
      if submessage != 0 { return Err(Other); }
      src.SetPosition(0);
      var payload :- src.Read(12);
      return Ok(QemuClientMessage(payload));
    } else {
      return Err(Other);
    }
  }

  // What is a message, without a parser.

  /** The payload alone is a complete, supported client message. */
  ghost predicate WellFormed(d: seq<Byte>) {
    && |d| >= 4
    && (match d[0]
        case 0 => |d| == 20
        case 2 => |d| == 4 + 4 * U16Of(d, 2)
        case 3 => |d| == 10
        case 4 => |d| == 8
        case 5 => |d| == 6
        case 6 =>
          && |d| >= 8 && -MAX_MESSAGE_LENGTH <= I32Of(d, 4) <= MAX_MESSAGE_LENGTH
          && |d| == 8 + (if I32Of(d, 4) < 0 then -I32Of(d, 4) else I32Of(d, 4))
        case 150 => |d| == 10
        case 245 => (d[1] == 0 && d[2..4] == Be16(6) && |d| == 10) || (1 <= d[1] <= 2 && d[2..] == Be16(0))
        case 248 => |d| >= 9 && |d| == 9 + d[8] as int
        case 251 => |d| >= 8 && |d| == 8 + 16 * (d[6] as int)
        case 255 => d[1] == 0 && |d| == 12
        case _ => false)
  }

  /** The reading of a well-formed payload at the front of a buffer. */
  lemma WellFormedAccepted(s: seq<Byte>, d: seq<Byte>)
    requires d <= s && WellFormed(d) && (d[0] == 6 && ShortExtended(d) ==> |s| >= 12)
    ensures MessageEnd(s) == Ok(|d|)
  {
    if d[0] == 6 { assert I32Of(s, 4) == I32Of(d, 4); }
    if d[0] == 245 { assert d[2] == d[2..][0] && d[3] == d[2..][1]; assert d[2..4] == [d[2], d[3]]; }
  }

  lemma AcceptedWellFormed(s: seq<Byte>)
    requires MessageEnd(s).Ok?
    ensures WellFormed(s[..MessageEnd(s).value])
    ensures s[0] == 6 && ShortExtended(s[..MessageEnd(s).value]) ==> |s| >= 12
  {
    var d := s[..MessageEnd(s).value];
    if s[0] == 6 { assert I32Of(d, 4) == I32Of(s, 4); }
    if s[0] == 245 { U16RoundTrip(d, 2); }
  }

  /** The parser accepts exactly the well-formed payloads at the front of a buffer. */
  lemma ClientGrammar(s: seq<Byte>, m: Message)
    ensures ParseClient(s) == Ok(m) <==>
            && m.payload <= s && WellFormed(m.payload) && m == MessageOf(m.payload)
            && (m.payload[0] == 6 && ShortExtended(m.payload) ==> |s| >= 12)
  {
    hide MessageEnd, MessageOf;
    if ParseClient(s) == Ok(m) {
      AcceptedWellFormed(s);
    }
    if m.payload <= s && WellFormed(m.payload) && (m.payload[0] == 6 && ShortExtended(m.payload) ==> |s| >= 12) {
      WellFormedAccepted(s, m.payload);
      assert s[..|m.payload|] == m.payload;
    }
  }

  /** More input never changes a message or a hard error. */
  lemma ClientStable(s: seq<Byte>, t: seq<Byte>)
    requires s <= t && Settled(ParseClient(s))
    ensures ParseClient(t) == ParseClient(s)
  {
    var end := MessageEnd(s);
    if end.Ok? {
      AcceptedWellFormed(s);
      WellFormedAccepted(t, s[..end.value]);
      assert t[..end.value] == s[..end.value];
    } else {
      ErrorStable(s, t);
    }
  }

  lemma ErrorStable(s: seq<Byte>, t: seq<Byte>)
    requires s <= t && MessageEnd(s) == Err(Other)
    ensures MessageEnd(t) == Err(Other)
  {
    if s[0] == 6 { assert I32Of(t, 4) == I32Of(s, 4); }
  }

  /** No strict prefix of an accepted message is a message, or an error. */
  lemma ClientPrefixIncomplete(s: seq<Byte>, k: nat)
    requires ParseClient(s).Ok? && k < ParseClient(s).value.Len()
    ensures ParseClient(s[..k]) == Err(Incomplete)
  {
    if Settled(ParseClient(s[..k])) {
      ClientStable(s[..k], s);
    }
  }

  /** A message parses back from its own bytes, except for an extended cut text of less than four bytes. */
  lemma ClientOwnBytes(s: seq<Byte>)
    requires ParseClient(s).Ok?
    ensures var m := ParseClient(s).value;
            ParseClient(m.payload) == Ok(m) <==> !(m.ClientCutText? && ShortExtended(m.payload))
  {
    var m := ParseClient(s).value;
    ClientGrammar(s, m);
    ClientGrammar(m.payload, m);
  }

  /** The exclusion is not empty: a twelve-byte buffer that holds a nine-byte extended cut text. */
  lemma ShortExtendedExample()
    ensures var s := [6, 0, 0, 0, 255, 255, 255, 255, 7, 0, 0, 0];
            ParseClient(s) == Ok(ClientCutText(s[..9])) && ParseClient(s[..9]) == Err(Incomplete)
  {
    var s := [6, 0, 0, 0, 255, 255, 255, 255, 7, 0, 0, 0];
    assert I32Of(s, 4) == -1;
    assert MessageEnd(s) == Ok(9);
    ClientOwnBytes(s);
    assert I32Of(s[..9], 4) == -1;
  }
}
