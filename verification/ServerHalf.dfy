/** src/rfb.rs, the server-to-client half: messages reassembled from whatever the socket delivers. */
module ServerHalf {
  import opened Bytes
  import opened Io
  import opened ServerParser
  import opened ServerStability
  import opened Framing

  ghost function ServerFramer(bpp: nat): (f: Framer<Message>) {
    Framer(s => ParseServer(s, bpp), (m: Message) => m.IntoData())
  }

  lemma ServerFramerLawful(bpp: nat)
    ensures ServerFramer(bpp).Lawful()
  {
    var f := ServerFramer(bpp);
    forall s, t | s <= t && f.parse(s) != Err(Incomplete) ensures f.parse(t) == f.parse(s) {
      ServerStable(s, t, bpp);
    }
  }

  /** The bytes of each message, as handed to the WebSocket. */
  ghost function Payloads(ms: seq<Message>): (d: seq<seq<Byte>>) {
    seq(|ms|, i requires 0 <= i < |ms| => ms[i].payload)
  }

  lemma PayloadsSnoc(ms: seq<Message>, m: Message)
    ensures Payloads(ms + [m]) == Payloads(ms) + [m.payload]
  {
  }

  /** The pixel size both halves share; the client half stores to it. */
  class ConnectionState {
    var bytesPerPixel: nat

    constructor (bitsPerPixel: Byte)
      ensures bytesPerPixel == bitsPerPixel / 8 <= 31
    {
      bytesPerPixel := bitsPerPixel / 8;
    }
  }

  /**
   How one await of the socket ends. `Ready` brings bytes, none of them at end of stream; `Dropped` means
   that the other branch of the select won and the read was cancelled. The client half may have stored
   another pixel size by then: `bpp` is what the loop finds when it resumes.
   */
  datatype Await = Ready(bytes: seq<Byte>, bpp: nat) | Broken | Dropped(bpp: nat)

  ghost function Chunks(events: seq<Await>): (c: seq<seq<Byte>>) {
    seq(|events|, i requires 0 <= i < |events| => if events[i].Ready? then events[i].bytes else [])
  }

  /** All the bytes a run of awaits delivers. */
  ghost function Delivered(events: seq<Await>): (s: seq<Byte>) { Flatten(Chunks(events)) }

  lemma DeliveredNothing(events: seq<Await>)
    ensures Delivered(events[..0]) == []
  {
  }

  lemma DeliveredJoin(events: seq<Await>, i: nat, n: nat)
    requires i + n <= |events|
    ensures Delivered(events[..i]) + Delivered(events[i..][..n]) == Delivered(events[..i + n])
  {
    FlattenAppend(Chunks(events[..i]), Chunks(events[i..][..n]));
    assert Chunks(events[..i + n]) == Chunks(events[..i]) + Chunks(events[i..][..n]);
  }

  /** The client stores no other pixel size in the meantime. */
  ghost predicate Fixed(events: seq<Await>, bpp: nat) {
    forall e | e in events && !e.Broken? :: e.bpp == bpp
  }

  lemma FixedNothing(events: seq<Await>, bpp: nat)
    ensures Fixed(events[..0], bpp)
  {
  }

  lemma FixedJoin(events: seq<Await>, i: nat, n: nat, bpp: nat)
    requires i + n <= |events|
    ensures Fixed(events[..i + n], bpp) <==> Fixed(events[..i], bpp) && Fixed(events[i..][..n], bpp)
  {
    assert events[..i + n] == events[..i] + events[i..][..n];
  }

  /** The messages a server stream is cut into. */
  ghost function ServerCut(s: seq<Byte>, bpp: nat): (c: Cut<Message>) {
    ServerFramerLawful(bpp);
    ServerFramer(bpp).CutAll(s)
  }

  lemma EmittedBytes(done: seq<Message>, m: Message, buf: seq<Byte>)
    requires m.payload <= buf
    ensures Flatten(Payloads(done + [m])) + buf[m.Len()..] == Flatten(Payloads(done)) + buf
  {
    hide Flatten, Payloads;
    PayloadsSnoc(done, m);
    FlattenSnoc(Payloads(done), m.payload);
    assert buf == m.payload + buf[m.Len()..];
    assert Flatten(Payloads(done)) + m.payload + buf[m.Len()..]
        == Flatten(Payloads(done)) + (m.payload + buf[m.Len()..]);
  }

  /** The pixel size a read finds after these awaits: the last one stored. */
  ghost function SizeAfter(bpp: nat, events: seq<Await>): (b: nat)
    decreases |events|
  {
    if events == [] then bpp
    else
      var last := events[|events| - 1];
      if last.Broken? then SizeAfter(bpp, events[..|events| - 1]) else last.bpp
  }

  lemma SizeNext(bpp: nat, events: seq<Await>, n: nat)
    requires n < |events|
    ensures SizeAfter(bpp, events[..n + 1]) ==
            if events[n].Broken? then SizeAfter(bpp, events[..n]) else events[n].bpp
  {
    assert events[..n + 1][..n] == events[..n];
  }

  /**
   `done` are the messages at the front of `s`, one after the other, each as the parser reads it at its own
   pixel size; `rest` is what follows them.
   */
  ghost predicate Framed(s: seq<Byte>, done: seq<Message>, sizes: seq<nat>, rest: seq<Byte>)
    decreases |done|
  {
    if done == [] then sizes == [] && rest == s
    else
      && sizes != [] && ParseServer(s, sizes[0]) == Ok(done[0])
      && Framed(s[done[0].Len()..], done[1..], sizes[1..], rest)
  }

  /** One more message leaves the front of what remains. */
  lemma {:induction false} FramedEmit(
    s: seq<Byte>, done: seq<Message>, sizes: seq<nat>, rest: seq<Byte>, bpp: nat, m: Message)
    requires Framed(s, done, sizes, rest) && ParseServer(rest, bpp) == Ok(m)
    ensures Framed(s, done + [m], sizes + [bpp], rest[m.Len()..])
    decreases |done|
  {
    hide ParseServer;
    if done == [] {
      assert (done + [m])[1..] == [] && (sizes + [bpp])[1..] == [];
    } else {
      FramedEmit(s[done[0].Len()..], done[1..], sizes[1..], rest, bpp, m);
      assert (done + [m])[1..] == done[1..] + [m] && (sizes + [bpp])[1..] == sizes[1..] + [bpp];
    }
  }

  /** More bytes change none of the messages. */
  lemma {:induction false} FramedRead(
    s: seq<Byte>, done: seq<Message>, sizes: seq<nat>, rest: seq<Byte>, bytes: seq<Byte>)
    requires Framed(s, done, sizes, rest)
    ensures Framed(s + bytes, done, sizes, rest + bytes)
    decreases |done|
  {
    hide ParseServer;
    if done != [] {
      var n := done[0].Len();
      ServerStable(s, s + bytes, sizes[0]);
      FramedRead(s[n..], done[1..], sizes[1..], rest, bytes);
      assert (s + bytes)[n..] == s[n..] + bytes;
    }
  }

  // A pixel format changed while messages are under way.

  /** No message the stream is cut into meets a rectangle sized by the pixel format, nor does what is left. */
  ghost predicate PixelFreeStream(s: seq<Byte>, bpp: nat)
    decreases |s|
  {
    && PixelFreeMessage(s, bpp)
    && (ParseServer(s, bpp).Ok? ==> PixelFreeStream(s[ParseServer(s, bpp).value.Len()..], bpp))
  }

  /** Such a stream is cut in the same way in every pixel format. */
  lemma {:induction false} CutImmune(s: seq<Byte>, b1: nat, b2: nat)
    requires PixelFreeStream(s, b1)
    ensures ServerCut(s, b1) == ServerCut(s, b2)
    decreases |s|
  {
    hide ParseServer, PixelFreeMessage, Framer.Lawful;
    ServerFramerLawful(b1);
    ServerFramerLawful(b2);
    PixelFormatImmune(s, b1, b2);
    if ParseServer(s, b1).Ok? {
      CutImmune(s[ParseServer(s, b1).value.Len()..], b1, b2);
    }
  }

  lemma {:induction false} PixelFreeAny(s: seq<Byte>, b1: nat, b2: nat)
    requires PixelFreeStream(s, b1)
    ensures PixelFreeStream(s, b2)
    decreases |s|
  {
    hide ParseServer, PixelFreeMessage;
    PixelFormatImmune(s, b1, b2);
    if ParseServer(s, b1).Ok? {
      PixelFreeAny(s[ParseServer(s, b1).value.Len()..], b1, b2);
    }
  }

  lemma {:induction false} PixelFreePrefix(s: seq<Byte>, t: seq<Byte>, bpp: nat)
    requires s <= t && PixelFreeStream(t, bpp)
    ensures PixelFreeStream(s, bpp)
    decreases |s|
  {
    hide ParseServer, PixelFreeMessage;
    PixelFreeMessagePrefix(s, t, bpp);
    if ParseServer(s, bpp).Ok? {
      ServerStable(s, t, bpp);
      var n := ParseServer(s, bpp).value.Len();
      assert s[n..] <= t[n..];
      PixelFreePrefix(s[n..], t[n..], bpp);
    }
  }

  /** With one pixel size, or with a pixel-free stream, these are the messages the stream is cut into. */
  lemma {:induction false} FramedInStep(s: seq<Byte>, done: seq<Message>, sizes: seq<nat>, rest: seq<Byte>, bpp: nat)
    requires Framed(s, done, sizes, rest)
    requires (forall k | 0 <= k < |sizes| :: sizes[k] == bpp) || PixelFreeStream(s, bpp)
    ensures ServerCut(s, bpp) == ServerCut(rest, bpp).After(done)
    decreases |done|
  {
    hide ParseServer, PixelFreeMessage, Framer.Lawful, Framer.CutAll;
    if done == [] {
      assert [] + ServerCut(s, bpp).messages == ServerCut(s, bpp).messages;
    } else {
      if PixelFreeStream(s, bpp) { PixelFormatImmune(s, bpp, sizes[0]); }
      var tail := s[done[0].Len()..];
      FramedInStep(tail, done[1..], sizes[1..], rest, bpp);
      ServerFramerLawful(bpp);
      ServerFramer(bpp).CutStep(s);
      var c := ServerCut(rest, bpp);
      assert [done[0]] + (done[1..] + c.messages) == done + c.messages;
    }
  }

  datatype Outcome =
    | Received(message: Message)
    | End
    | Malformed
    | ResetByPeer
    | ReadError
    | Cancelled
    | Pending

  /** How an await ends the call, when `buf` is what is buffered; only bytes that arrive do not. */
  function Ending(a: Await, buf: seq<Byte>): (r: Option<Outcome>) {
    match a
    case Dropped(_) => Some(Cancelled)
    case Broken => Some(ReadError)
    case Ready(bytes, _) => if bytes != [] then None else Some(if buf != [] then ResetByPeer else End)
  }

  /** Bytes arrive at each of these awaits. */
  ghost predicate Arrive(events: seq<Await>) {
    forall i | 0 <= i < |events| :: Ending(events[i], []).None?
  }

  lemma NoneArrive(events: seq<Await>)
    ensures Arrive(events[..0])
  {
  }

  lemma ArriveNext(events: seq<Await>, n: nat)
    requires n < |events| && Arrive(events[..n]) && Ending(events[n], []).None?
    ensures Arrive(events[..n + 1])
  {
    assert events[..n + 1] == events[..n] + [events[n]];
  }

  class ReadHalf {
    const state: ConnectionState
    var socket: seq<Await>
    var buf: seq<Byte>
    ghost var received: seq<Byte>
    ghost var emitted: seq<Message>
    // The pixel size each emitted message was parsed with.
    ghost var sizes: seq<nat>

    constructor (state: ConnectionState, socket: seq<Await>)
      ensures this.state == state && this.socket == socket
      ensures buf == [] && received == [] && emitted == [] && sizes == [] && Valid()
    {
      this.state := state;
      this.socket := socket;
      buf, received, emitted, sizes := [], [], [], [];
    }

    /**
     No byte is lost or repeated: those emitted and those kept are those read, in order; and the emitted
     messages are whole, cut from the bytes read by the parser.
     */
    ghost predicate Valid()
      reads `received, `emitted, `buf, `sizes
    {
      Flatten(Payloads(emitted)) + buf == received && Framed(received, emitted, sizes, buf)
    }

    /** The messages emitted are those the whole stream read so far is cut into at one pixel size. */
    ghost predicate InStep(bpp: nat)
      reads `received, `emitted, `buf
    {
      ServerCut(received, bpp) == ServerCut(buf, bpp).After(emitted)
    }

    lemma AllEmitted()
      requires Valid()
      ensures buf == [] ==> Flatten(Payloads(emitted)) == received
    {
    }

    /** A reader that waits for more has emitted every message of the stream. */
    lemma WaitingComplete(bpp: nat)
      requires ParseServer(buf, bpp) == Err(Incomplete)
      ensures InStep(bpp) ==> emitted == ServerCut(received, bpp).messages
    {
      hide ParseServer, Framer.Lawful;
      ServerFramerLawful(bpp);
      assert emitted + [] == emitted;
    }

    /** A reader that has parsed with one pixel size only is in step at that size. */
    lemma FixedInStep(bpp: nat)
      requires Valid() && forall k | 0 <= k < |sizes| :: sizes[k] == bpp
      ensures InStep(bpp)
    {
      hide Framed, ServerCut, Flatten, Payloads;
      FramedInStep(received, emitted, sizes, buf, bpp);
    }

    /** A reader of a pixel-free stream is in step at every pixel size, whatever sizes it has parsed with. */
    lemma PixelFreeInStep(b1: nat, b2: nat)
      requires Valid() && PixelFreeStream(received, b1)
      ensures InStep(b2)
    {
      hide Framed, ServerCut, Flatten, Payloads, PixelFreeStream;
      PixelFreeAny(received, b1, b2);
      FramedInStep(received, emitted, sizes, buf, b2);
    }

    /** `self.buf.advance(msg.len())`. */
    method Emit(m: Message)
      requires Valid() && ParseServer(buf, state.bytesPerPixel) == Ok(m)
      modifies this
      ensures Valid() && buf == old(buf)[m.Len()..] && received == old(received) && socket == old(socket)
      ensures emitted == old(emitted) + [m] && sizes == old(sizes) + [state.bytesPerPixel]
    {
      hide ParseServer, Framed, Payloads, Flatten;
      EmittedBytes(emitted, m, buf);
      FramedEmit(received, emitted, sizes, buf, state.bytesPerPixel, m);
      emitted := emitted + [m];
      sizes := sizes + [state.bytesPerPixel];
      buf := buf[m.Len()..];
    }

    /** `read_buf(&mut self.buf)`. */
    method Extend(bytes: seq<Byte>)
      requires Valid()
      modifies this
      ensures Valid() && buf == old(buf) + bytes && received == old(received) + bytes
      ensures emitted == old(emitted) && sizes == old(sizes) && socket == old(socket)
    {
      hide Framed, Payloads, Flatten;
      FramedRead(received, emitted, sizes, buf, bytes);
      assert Flatten(Payloads(emitted)) + (buf + bytes) == Flatten(Payloads(emitted)) + buf + bytes;
      buf := buf + bytes;
      received := received + bytes;
    }

    /** One await of the socket; the result ends the call. */
    method AwaitSocket() returns (r: Option<Outcome>)
      requires Valid() && socket != []
      modifies this, state
      ensures Valid() && socket == old(socket)[1..] && emitted == old(emitted) && sizes == old(sizes)
      ensures buf == old(buf) + (if old(socket)[0].Ready? then old(socket)[0].bytes else [])
      ensures buf == old(buf) + Delivered(old(socket)[..1])
      ensures received == old(received) + Delivered(old(socket)[..1])
      ensures state.bytesPerPixel == if old(socket)[0].Broken? then old(state.bytesPerPixel) else old(socket)[0].bpp
      ensures r == Ending(old(socket)[0], buf) && (r.None? ==> Ending(old(socket)[0], []).None?)
      ensures r == Some(End) ==> Flatten(Payloads(emitted)) == received
    {
      hide Valid;
      var await := socket[0];
      ghost var chunk := if await.Ready? then await.bytes else [];
      assert Delivered(socket[..1]) == chunk by {
        assert Chunks(socket[..1]) == [] + [chunk];
        FlattenSnoc([], chunk);
      }
      socket := socket[1..];
      match await {
        case Dropped(bpp) =>
          state.bytesPerPixel := bpp;
          return Some(Cancelled);
        case Broken => return Some(ReadError);
        case Ready(bytes, bpp) =>
          Extend(bytes);
          state.bytesPerPixel := bpp;
          if bytes == [] {
            assert buf == [] ==> Flatten(Payloads(emitted)) == received by { AllEmitted(); }
            return Some(if buf != [] then ResetByPeer else End);
          }
          return None;
      }
    }

    /**
     `used` counts the awaits of the socket; the call may be dropped at any of them, or stay pending. What is
     returned is the message the parser reads at the front of the buffer and the bytes that arrived, at the
     pixel size last stored; without a message, all those bytes are kept.
     */
    method ReadServerMessage(debug: bool) returns (r: Outcome, ghost used: nat)
      requires Valid()
      modifies this, state
      ensures Valid() && used <= |old(socket)| && socket == old(socket)[used..]
      ensures received == old(received) + Delivered(old(socket)[..used])
      ensures state.bytesPerPixel == SizeAfter(old(state.bytesPerPixel), old(socket)[..used])
      ensures var all := old(buf) + Delivered(old(socket)[..used]);
              if r.Received? then
                && ParseServer(all, state.bytesPerPixel) == Ok(r.message) && buf == all[r.message.Len()..]
                && emitted == old(emitted) + [r.message] && sizes == old(sizes) + [state.bytesPerPixel]
              else
                buf == all && emitted == old(emitted) && sizes == old(sizes)
      ensures r.End? ==> buf == [] && Flatten(Payloads(emitted)) == received
      ensures forall i | 0 <= i < used && (i < used - 1 || r.Received? || r.Malformed? || r.Pending?) ::
                old(socket)[i].Ready? && old(socket)[i].bytes != []
      ensures !(r.Received? || r.Malformed? || r.Pending?) ==>
                && used > 0
                && match old(socket)[used - 1] {
                     case Dropped(_) => r.Cancelled?
                     case Broken => r.ReadError?
                     case Ready(bytes, _) => bytes == [] && (if buf == [] then r.End? else r.ResetByPeer?)
                   }
      ensures if r.Received? || r.Malformed? || r.Pending? then Arrive(old(socket)[..used])
              else used > 0 && Arrive(old(socket)[..used - 1]) && Some(r) == Ending(old(socket)[used - 1], buf)
      ensures r.Malformed? ==> ParseServer(buf, state.bytesPerPixel) == Err(Other)
      ensures r.Pending? ==> socket == [] && ParseServer(buf, state.bytesPerPixel) == Err(Incomplete)
    {
      hide ParseServer, Valid, Delivered, SizeAfter, Flatten, Payloads, Arrive;
      used := 0;
      DeliveredNothing(socket);
      NoneArrive(socket);
      SizeUnchanged(state.bytesPerPixel, socket);
      while true
        invariant Valid() && used <= |old(socket)| && socket == old(socket)[used..]
        invariant received == old(received) + Delivered(old(socket)[..used])
        invariant buf == old(buf) + Delivered(old(socket)[..used])
        invariant state.bytesPerPixel == SizeAfter(old(state.bytesPerPixel), old(socket)[..used])
        invariant emitted == old(emitted) && sizes == old(sizes)
        invariant Arrive(old(socket)[..used])
        invariant forall i | 0 <= i < used :: old(socket)[i].Ready? && old(socket)[i].bytes != []
        decreases |socket|
      {
        var cur := new Cursor(buf);
        var parsed := ServerParser.Parse(cur, state.bytesPerPixel, debug);
        if parsed.Ok? {
          Emit(parsed.value);
          return Received(parsed.value), used;
        }
        if parsed.error.Other? {
          return Malformed, used;
        }
        if socket == [] {
          // Nothing further is ever delivered.
          return Pending, used;
        }
        DeliveredJoin(old(socket), used, 1);
        SizeNext(old(state.bytesPerPixel), old(socket), used);
        var done := AwaitSocket();
        used := used + 1;
        if done.Some? { return done.value, used; }
        ArriveNext(old(socket), used - 1);
      }
    }
  }

  lemma SizeUnchanged(bpp: nat, events: seq<Await>)
    ensures SizeAfter(bpp, events[..0]) == bpp
  {
  }
}
