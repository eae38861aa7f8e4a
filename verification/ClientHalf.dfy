/**
 src/rfb.rs, the client-to-server half: client messages reassembled, audio commands taken out and
 answered, everything else forwarded.
 */
module ClientHalf {
  import opened Bytes
  import opened Io
  import opened ClientParser
  import opened Framing
  import ServerHalf

  ghost function ClientFramer(): (f: Framer<ClientParser.Message>) {
    Framer(s => ParseClient(s), (m: ClientParser.Message) => m.IntoData())
  }

  lemma ClientFramerLawful()
    ensures ClientFramer().Lawful()
  {
    var f := ClientFramer();
    forall s, t | s <= t && f.parse(s) != Err(Incomplete) ensures f.parse(t) == f.parse(s) {
      ClientStable(s, t);
    }
  }

  /** The messages a client stream is cut into. */
  ghost function ClientCut(s: seq<Byte>): (c: Cut<ClientParser.Message>) {
    ClientFramerLawful();
    ClientFramer().CutAll(s)
  }

  /** What StartEncoder asks for. */
  datatype Config = Config(channels: Byte, codec: U16, kbps: U16)

  const START_ENCODER: Byte := 0
  const CONTINUOUS_UPDATES: Byte := 2

  /** A Replit audio server message of one byte. */
  function AudioReply(submessage: Byte, enabled: bool): (d: seq<Byte>) {
    [0xF5, submessage, 0x00, 0x01, if enabled then 1 else 0]
  }

  const REPLIT_AUDIO := 0x52706C41

  /** The update that confirms the audio pseudo-encoding: version 0, codecs 0 and 1. */
  const AUDIO_SUPPORT: seq<Byte> :=
    [0, 0, 0, 1, 0, 0, 0, 0, 0, 0, 0, 0, 0x52, 0x70, 0x6C, 0x41, 0, 0, 0, 2, 0, 0, 0, 1]

  /** One confirmation for each occurrence of the pseudo-encoding from offset `i` on. */
  function Confirmations(payload: seq<Byte>, i: nat): (c: seq<seq<Byte>>)
    decreases |payload| - i
  {
    if i + 4 > |payload| then []
    else (if I32Of(payload, i) == REPLIT_AUDIO then [AUDIO_SUPPORT] else []) + Confirmations(payload, i + 4)
  }

  lemma ConfirmationsNext(payload: seq<Byte>, i: nat)
    requires i + 4 <= |payload|
    ensures Confirmations(payload, i) ==
            (if I32Of(payload, i) == REPLIT_AUDIO then [AUDIO_SUPPORT] + Confirmations(payload, i + 4)
             else Confirmations(payload, i + 4))
  {
    assert [] + Confirmations(payload, i + 4) == Confirmations(payload, i + 4);
  }

  /** One message more, and what is still to be sent. */
  lemma Regroup(sent: seq<seq<Byte>>, message: seq<Byte>, rest: seq<seq<Byte>>)
    ensures sent + ([message] + rest) == sent + [message] + rest && sent <= sent + ([message] + rest)
  {
  }

  lemma ConfirmationsEnd(payload: seq<Byte>)
    ensures Confirmations(payload, |payload|) == []
  {
  }

  /** Everything handling a message can change, on values. */
  datatype Effects = Effects(
    audio: Option<Config>,
    stop: Option<nat>,
    tasks: seq<Config>,
    bpp: nat,
    toServer: seq<Byte>,
    toClient: seq<seq<Byte>>)

  /** `streamOk` tells whether an audio stream could be opened for this message. */
  function Handle(e: Effects, m: ClientParser.Message, streamOk: bool): (r: Effects) {
    match m
    case StartEncoder(_, enabled, channels, codec, kbps) =>
      if !enabled then
        e.(stop := None, audio := None, toClient := e.toClient + [AudioReply(START_ENCODER, false)])
      else if streamOk then
        e.(audio := Some(Config(channels, codec, kbps)), toClient := e.toClient + [AudioReply(START_ENCODER, true)])
      else
        e.(toClient := e.toClient + [AudioReply(START_ENCODER, false)])
    case StartContinuousUpdates(_) =>
      if e.audio.None? then
        e.(toClient := e.toClient + [AudioReply(CONTINUOUS_UPDATES, false)])
      else
        e.(audio := None, stop := Some(|e.tasks|), tasks := e.tasks + [e.audio.value],
        toClient := e.toClient + [AudioReply(CONTINUOUS_UPDATES, true)])
    case SetEncodings(d) =>
      e.(toClient := e.toClient + Confirmations(d, 4), toServer := e.toServer + d)
    case SetPixelFormat(d) =>
      e.(bpp := if |d| > 4 then d[4] / 8 else e.bpp, toServer := e.toServer + d)
    case _ => e.(toServer := e.toServer + m.payload)
  }

  function HandleAll(e: Effects, ms: seq<ClientParser.Message>, opens: seq<bool>): (r: Effects)
    requires |ms| == |opens|
    decreases |ms|
  {
    if ms == [] then e
    else
      var n := |ms| - 1;
      Handle(HandleAll(e, ms[..n], opens[..n]), ms[n], opens[n])
  }

  lemma HandleAllSnoc(
    e: Effects, ms: seq<ClientParser.Message>, opens: seq<bool>, m: ClientParser.Message, streamOk: bool)
    requires |ms| == |opens|
    ensures HandleAll(e, ms + [m], opens + [streamOk]) == Handle(HandleAll(e, ms, opens), m, streamOk)
  {
    assert (ms + [m])[..|ms|] == ms && (opens + [streamOk])[..|ms|] == opens;
  }

  predicate Intercepted(m: ClientParser.Message) { m.StartEncoder? || m.StartContinuousUpdates? }

  /** The messages that are not audio commands, verbatim and in order. */
  function Forwarded(ms: seq<ClientParser.Message>): (d: seq<seq<Byte>>)
    decreases |ms|
  {
    if ms == [] then []
    else
      var m := ms[|ms| - 1];
      Forwarded(ms[..|ms| - 1]) + (if Intercepted(m) then [] else [m.payload])
  }

  lemma ForwardedSnoc(ms: seq<ClientParser.Message>, m: ClientParser.Message)
    ensures Flatten(Forwarded(ms + [m])) == Flatten(Forwarded(ms)) + (if Intercepted(m) then [] else m.payload)
  {
    hide Flatten;
    assert (ms + [m])[..|ms|] == ms;
    if Intercepted(m) {
      assert Forwarded(ms) + [] == Forwarded(ms);
    } else {
      FlattenSnoc(Forwarded(ms), m.payload);
    }
  }

  /** The server receives every message but the audio commands, whatever the streams opened. */
  lemma {:induction false} Transparency(e: Effects, ms: seq<ClientParser.Message>, opens: seq<bool>)
    requires |ms| == |opens|
    ensures HandleAll(e, ms, opens).toServer == e.toServer + Flatten(Forwarded(ms))
    decreases |ms|
  {
    if ms != [] {
      var n := |ms| - 1;
      assert ms == ms[..n] + [ms[n]];
      Transparency(e, ms[..n], opens[..n]);
      ForwardedSnoc(ms[..n], ms[n]);
      assert e.toServer + Flatten(Forwarded(ms[..n])) + ms[n].payload
          == e.toServer + (Flatten(Forwarded(ms[..n])) + ms[n].payload);
    }
  }

  /** A stream that was asked for, and whether it was opened. */
  datatype Asked = Asked(config: Config, granted: bool)

  /** The stream a message asks for: only an enabling StartEncoder asks for one, with its own parameters. */
  function AskedBy(m: ClientParser.Message, streamOk: bool): (a: seq<Asked>) {
    if m.StartEncoder? && m.enabled then [Asked(Config(m.channels, m.codec, m.kbps), streamOk)] else []
  }

  function AllAsked(ms: seq<ClientParser.Message>, opens: seq<bool>): (a: seq<Asked>)
    requires |ms| == |opens|
    decreases |ms|
  {
    if ms == [] then []
    else
      var n := |ms| - 1;
      AllAsked(ms[..n], opens[..n]) + AskedBy(ms[n], opens[n])
  }

  lemma AllAskedSnoc(ms: seq<ClientParser.Message>, opens: seq<bool>, m: ClientParser.Message, streamOk: bool)
    requires |ms| == |opens|
    ensures AllAsked(ms + [m], opens + [streamOk]) == AllAsked(ms, opens) + AskedBy(m, streamOk)
  {
    assert (ms + [m])[..|ms|] == ms && (opens + [streamOk])[..|ms|] == opens;
  }

  datatype WriteResult = Done | Malformed | IoError

  class WriteHalf {
    const state: ServerHalf.ConnectionState
    var buf: seq<Byte>
    var capacity: nat
    var stopChan: Option<nat>
    var audioStream: Option<Config>
    // What the connections and the runtime have received from this half.
    var tasks: seq<Config>
    var toServer: seq<Byte>
    var toClient: seq<seq<Byte>>
    var serverShut: bool
    // What the environment will answer: to the sends and writes, and to the streams to open.
    var network: seq<bool>
    var streams: seq<bool>
    // How many sends and writes have failed, and the streams asked for, with the answers.
    ghost var faults: nat
    ghost var asked: seq<Asked>
    ghost const start: nat
    ghost var received: seq<Byte>
    ghost var handled: seq<ClientParser.Message>
    ghost var opens: seq<bool>

    constructor (state: ServerHalf.ConnectionState, network: seq<bool>, streams: seq<bool>)
      ensures Valid() && this.state == state && start == state.bytesPerPixel
      ensures this.network == network && this.streams == streams
      ensures received == [] && handled == [] && buf == [] && faults == 0
    {
      this.state, this.network, this.streams := state, network, streams;
      faults, asked := 0, [];
      start := state.bytesPerPixel;
      buf, capacity := [], 1024;
      stopChan, audioStream, tasks := None, None, [];
      toServer, toClient, serverShut := [], [], false;
      received, handled, opens := [], [], [];
      new;
      assert [] + ClientCut([]).messages == ClientCut([]).messages;
    }

    ghost function Now(): (e: Effects)
      reads `audioStream, `stopChan, `tasks, `toServer, `toClient, state
    {
      Effects(audioStream, stopChan, tasks, state.bytesPerPixel, toServer, toClient)
    }

    ghost predicate Fits()
      reads `buf, `capacity
    {
      |buf| <= capacity
    }

    /** The messages handled, then those in the buffer, are those of the whole stream. */
    ghost predicate InStep()
      reads `received, `handled, `buf
    {
      ClientCut(received) == ClientCut(buf).After(handled)
    }

    /** The state is the outcome of handling, one after the other, the messages of the stream so far. */
    ghost predicate Valid()
      reads this, state
    {
      && Fits() && InStep() && |handled| == |opens| && !serverShut
      && Now() == HandleAll(Initial(start), handled, opens)
      && asked == AllAsked(handled, opens)
    }

    /** `BytesMut::reserve`: at least the space asked for, the contents untouched. */
    method Reserve(additional: nat)
      requires Fits()
      modifies `capacity
      ensures Fits() && capacity - |buf| >= additional
    {
      var more: nat :| more >= additional;
      capacity := |buf| + more;
    }

    /** One answer of the environment to a send or a write; without one, it succeeds. */
    method Attempt() returns (ok: bool)
      modifies `network, `faults
      ensures ok == (old(network) == [] || old(network)[0])
      ensures network == if old(network) == [] then [] else old(network)[1..]
      ensures faults == old(faults) + (if ok then 0 else 1)
    {
      ok := network == [] || network[0];
      if network != [] { network := network[1..]; }
      if !ok { faults := faults + 1; }
    }

    method SendToClient(message: seq<Byte>) returns (ok: bool)
      modifies `toClient, `network, `faults
      ensures toClient == if ok then old(toClient) + [message] else old(toClient)
      ensures ok == (old(network) == [] || old(network)[0])
      ensures faults == old(faults) + (if ok then 0 else 1)
    {
      ok := Attempt();
      if ok { toClient := toClient + [message]; }
    }

    /** A failed write may have written a part. */
    method WriteToServer(d: seq<Byte>) returns (ok: bool)
      modifies `toServer, `network, `faults
      ensures ok ==> toServer == old(toServer) + d
      ensures toServer <= old(toServer) + d
      ensures ok == (old(network) == [] || old(network)[0])
      ensures faults == old(faults) + (if ok then 0 else 1)
    {
      ok := Attempt();
      var n: nat :| n <= |d|;
      toServer := toServer + (if ok then d else d[..n]);
    }

    /** `audio::Stream::new`: the codec must be known, then the encoder and the capture must open. */
    method OpenStream(config: Config) returns (streamOk: bool)
      modifies `streams, `asked
      ensures streamOk == (config.codec <= 1 && (old(streams) == [] || old(streams)[0]))
      ensures asked == old(asked) + [Asked(config, streamOk)]
    {
      streamOk := config.codec <= 1 && (streams == [] || streams[0]);
      if streams != [] { streams := streams[1..]; }
      asked := asked + [Asked(config, streamOk)];
    }

    /** The StartEncoder arm. */
    method OnStartEncoder(m: ClientParser.Message) returns (ok: bool, streamOk: bool)
      requires m.StartEncoder?
      modifies `audioStream, `stopChan, `toClient, `network, `faults, `streams, `asked
      ensures buf == old(buf) && capacity == old(capacity) && received == old(received)
      ensures handled == old(handled) && opens == old(opens) && serverShut == old(serverShut)
      ensures ok ==> Now() == Handle(old(Now()), m, streamOk)
      ensures faults == old(faults) + (if ok then 0 else 1) && asked == old(asked) + AskedBy(m, streamOk)
      ensures !m.enabled ==> !streamOk
      ensures toServer == old(toServer) == Handle(old(Now()), m, streamOk).toServer
      ensures toClient <= Handle(old(Now()), m, streamOk).toClient
    {
      hide AudioReply, Confirmations;
      streamOk := false;
      if !m.enabled {
        stopChan := None;
        audioStream := None;
        ok := SendToClient(AudioReply(START_ENCODER, false));
        return;
      }
      streamOk := OpenStream(Config(m.channels, m.codec, m.kbps));
      if !streamOk {
        ok := SendToClient(AudioReply(START_ENCODER, false));
        return;
      }
      audioStream := Some(Config(m.channels, m.codec, m.kbps));
      ok := SendToClient(AudioReply(START_ENCODER, true));
    }

    /** The StartContinuousUpdates arm: the stop channel is replaced and a task spawned after the answer. */
    method OnStartUpdates(m: ClientParser.Message) returns (ok: bool)
      requires m.StartContinuousUpdates?
      modifies `audioStream, `stopChan, `tasks, `toClient, `network, `faults
      ensures buf == old(buf) && capacity == old(capacity) && received == old(received)
      ensures handled == old(handled) && opens == old(opens) && serverShut == old(serverShut)
      ensures ok ==> Now() == Handle(old(Now()), m, false)
      ensures faults == old(faults) + (if ok then 0 else 1) && asked == old(asked)
      ensures toServer == old(toServer) == Handle(old(Now()), m, false).toServer
      ensures toClient <= Handle(old(Now()), m, false).toClient
    {
      hide AudioReply, Confirmations;
      if audioStream.None? {
        ok := SendToClient(AudioReply(CONTINUOUS_UPDATES, false));
        return;
      }
      var stream := audioStream.value;
      audioStream := None;
      ok := SendToClient(AudioReply(CONTINUOUS_UPDATES, true));
      if ok {
        stopChan := Some(|tasks|);
        tasks := tasks + [stream];
      }
    }

    /** The scan of the list of encodings. */
    method Confirm(d: seq<Byte>) returns (ok: bool)
      requires |d| >= 4 && |d| % 4 == 0
      modifies `toClient, `network, `faults
      ensures faults == old(faults) + (if ok then 0 else 1)
      ensures ok ==> toClient == old(toClient) + Confirmations(d, 4)
      ensures toClient <= old(toClient) + Confirmations(d, 4)
    {
      hide Confirmations, I32Of;
      var i := 4;
      while i < |d|
        invariant 4 <= i <= |d| && i % 4 == 0
        invariant toClient + Confirmations(d, i) == old(toClient) + Confirmations(d, 4)
        invariant faults == old(faults)
      {
        ConfirmationsNext(d, i);
        if I32Of(d, i) == REPLIT_AUDIO {
          Regroup(toClient, AUDIO_SUPPORT, Confirmations(d, i + 4));
          ok := SendToClient(AUDIO_SUPPORT);
          if !ok { return; }
        }
        i := i + 4;
      }
      ConfirmationsEnd(d);
      return true;
    }

    /** The SetEncodings arm: the scan, then the message itself. */
    method ForwardEncodings(m: ClientParser.Message) returns (ok: bool)
      requires m.SetEncodings? && |m.payload| >= 4 && |m.payload| % 4 == 0
      modifies `toClient, `toServer, `network, `faults
      ensures faults == old(faults) + (if ok then 0 else 1)
      ensures ok ==> Now() == Handle(old(Now()), m, false)
      ensures toServer <= Handle(old(Now()), m, false).toServer
      ensures toClient <= Handle(old(Now()), m, false).toClient
    {
      hide Confirmations;
      ok := Confirm(m.payload);
      if ok { ok := WriteToServer(m.payload); }
    }

    /** The SetPixelFormat arm: the pixel size is stored before the message is written. */
    method OnPixelFormat(m: ClientParser.Message) returns (ok: bool)
      requires m.SetPixelFormat? && |m.payload| == 20
      modifies `toServer, `network, `faults, state
      ensures faults == old(faults) + (if ok then 0 else 1)
      ensures ok ==> Now() == Handle(old(Now()), m, false)
      ensures toServer <= Handle(old(Now()), m, false).toServer
      ensures toClient == Handle(old(Now()), m, false).toClient
    {
      state.bytesPerPixel := m.payload[4] / 8;
      ok := WriteToServer(m.payload);
    }

    /** Every other message is forwarded as it is. */
    method Forward(m: ClientParser.Message) returns (ok: bool)
      requires !Intercepted(m) && !m.SetEncodings? && !m.SetPixelFormat?
      modifies `toServer, `network, `faults
      ensures faults == old(faults) + (if ok then 0 else 1)
      ensures ok ==> Now() == Handle(old(Now()), m, false)
      ensures toServer <= Handle(old(Now()), m, false).toServer
      ensures toClient == Handle(old(Now()), m, false).toClient
    {
      ok := WriteToServer(m.IntoData());
    }

    /** One arm of the match on the message just read. */
    method OnMessage(m: ClientParser.Message) returns (ok: bool, streamOk: bool)
      requires WellFormed(m.payload) && m == MessageOf(m.payload)
      modifies this, state
      ensures buf == old(buf) && capacity == old(capacity) && received == old(received)
      ensures handled == old(handled) && opens == old(opens) && serverShut == old(serverShut)
      ensures faults == old(faults) + (if ok then 0 else 1) && asked == old(asked) + AskedBy(m, streamOk)
      ensures ok ==> Now() == Handle(old(Now()), m, streamOk)
      ensures toServer <= Handle(old(Now()), m, streamOk).toServer
      ensures toClient <= Handle(old(Now()), m, streamOk).toClient
    {
      hide Handle, Now;
      streamOk := false;
      match m {
        case StartEncoder(_, _, _, _, _) => ok, streamOk := OnStartEncoder(m);
        case StartContinuousUpdates(_) => ok := OnStartUpdates(m);
        case SetEncodings(_) => ok := ForwardEncodings(m);
        case SetPixelFormat(_) => ok := OnPixelFormat(m);
        case _ => ok := Forward(m);
      }
    }

    /** `read_client_message`: the front of the buffer is parsed and, when it is a message, dropped. */
    method ReadClientMessage() returns (r: Result<ClientParser.Message>)
      requires Fits() && InStep()
      modifies `buf, `capacity, `handled
      ensures Fits() && InStep() && r == ParseClient(old(buf))
      ensures r.Ok? ==> buf == old(buf)[r.value.Len()..] && handled == old(handled) + [r.value]
      ensures r.Ok? ==> WellFormed(r.value.payload) && r.value == MessageOf(r.value.payload)
      ensures r.Ok? ==> capacity - |buf| == old(capacity) - |old(buf)|
      ensures r.Err? ==> buf == old(buf) && capacity == old(capacity) && handled == old(handled)
    {
      hide ParseClient;
      var cur := new Cursor(buf);
      r := ClientParser.Parse(cur);
      if r.Ok? {
        ClientGrammar(buf, r.value);
        EmittedInStep(received, handled, buf, r.value);
        handled := handled + [r.value];
        capacity := capacity - r.value.Len();
        buf := buf[r.value.Len()..];
      }
    }

    /** `extend_from_slice` with the space at hand. */
    method Append(chunk: seq<Byte>)
      requires Fits() && InStep() && ParseClient(buf) == Err(Incomplete) && |chunk| <= capacity - |buf|
      modifies `buf, `received
      ensures Fits() && InStep() && buf == old(buf) + chunk && received == old(received) + chunk
    {
      hide ParseClient;
      ReadInStep(received, handled, buf, chunk);
      buf := buf + chunk;
      received := received + chunk;
    }

    /** Between calls the buffer holds no complete message. */
    ghost predicate Idle()
      reads this, state
    {
      Valid() && ParseClient(buf) == Err(Incomplete)
    }

    /** The part of the loop that adds what is left of the input, if anything is. */
    method Fill(input: seq<Byte>, consumed: nat) returns (now: nat)
      requires Fits() && InStep()
      requires consumed == |input| || (consumed == 0 && ParseClient(buf) == Err(Incomplete))
      modifies `buf, `capacity, `received
      ensures Fits() && InStep() && now == |input|
      ensures buf == old(buf) + input[consumed..] && received == old(received) + input[consumed..]
    {
      hide ParseClient, InStep;
      now := consumed;
      var remaining := |input| - consumed;
      if remaining > 0 {
        if capacity - |buf| < remaining {
          Reserve(if remaining > 4096 then remaining else 4096);
        }
        var written := if capacity - |buf| < remaining then capacity - |buf| else remaining;
        if written > 0 {
          // The slice starts at the front of the input, not at the cursor: the two are the same here.
          assert consumed == 0 && input[0..written] == input[consumed..];
          Append(input[0..written]);
          now := consumed + written;
        }
      }
    }

    /**
     The input is added to the stream once, and every message that completes is handled in order; the
     call ends normally only when what is left is incomplete. After a failed write, the server has
     received a prefix of what it would have without the failure.
     */
    method WriteAll(input: seq<Byte>) returns (r: WriteResult)
      requires Idle()
      modifies this, state
      ensures received == old(received) + input && InStep() && !serverShut
      ensures faults == old(faults) + (if r.IoError? then 1 else 0)
      ensures r.Done? ==> Idle()
      ensures r.Malformed? ==> Valid() && ParseClient(buf) == Err(Other)
      ensures r.IoError? ==> toServer <= Flatten(Forwarded(handled))
    {
      hide ParseClient, HandleAll, Handle, InStep, Forwarded, Flatten, AllAsked, AskedBy;
      var consumed := 0;
      while true
        invariant Valid() && (consumed == |input| || (consumed == 0 && ParseClient(buf) == Err(Incomplete)))
        invariant received == old(received) + input[..consumed] && faults == old(faults)
        decreases |input| - consumed, |buf|
      {
        ghost var before := consumed;
        consumed := Fill(input, consumed);
        assert input[..before] + input[before..] == input == input[..consumed];
        var read := ReadClientMessage();
        if read.Err? {
          return if read.error.Incomplete? then Done else Malformed;
        }
        var ok := Dispatch(read.value);
        if !ok { return IoError; }
      }
    }

    /** Handles the message just read. */
    method Dispatch(m: ClientParser.Message) returns (ok: bool)
      requires Fits() && InStep() && |handled| == |opens| + 1 && handled[|opens|] == m
      requires WellFormed(m.payload) && m == MessageOf(m.payload) && !serverShut
      requires Now() == HandleAll(Initial(start), handled[..|opens|], opens)
      requires asked == AllAsked(handled[..|opens|], opens)
      modifies this, state
      ensures faults == old(faults) + (if ok then 0 else 1)
      ensures buf == old(buf) && capacity == old(capacity) && received == old(received)
      ensures handled == old(handled) && InStep() && !serverShut
      ensures ok ==> Valid()
      ensures !ok ==> toServer <= Flatten(Forwarded(handled))
    {
      hide HandleAll, Handle, InStep, Forwarded, Flatten, AllAsked, AskedBy;
      var streamOk;
      ok, streamOk := OnMessage(m);
      HandleAllSnoc(Initial(start), handled[..|opens|], opens, m, streamOk);
      assert handled[..|opens|] + [m] == handled;
      AllAskedSnoc(handled[..|opens|], opens, m, streamOk);
      Transparency(Initial(start), handled, opens + [streamOk]);
      assert [] + Flatten(Forwarded(handled)) == Flatten(Forwarded(handled));
      opens := opens + [streamOk];
    }

    /** Drops the receiver of the stop channel, and so stops the audio task, before it shuts the socket down. */
    method Shutdown() returns (ok: bool)
      modifies `stopChan, `serverShut, `network, `faults
      ensures stopChan == None && serverShut == (ok || old(serverShut))
      ensures faults == old(faults) + (if ok then 0 else 1)
    {
      stopChan := None;
      ok := Attempt();
      if ok { serverShut := true; }
    }
  }

  lemma EmittedInStep(s: seq<Byte>, done: seq<ClientParser.Message>, buf: seq<Byte>, m: ClientParser.Message)
    requires ClientCut(s) == ClientCut(buf).After(done) && ParseClient(buf) == Ok(m)
    ensures ClientCut(s) == ClientCut(buf[m.Len()..]).After(done + [m])
  {
    hide ParseClient, Framer.Lawful;
    ClientFramerLawful();
    ClientFramer().InStepEmit(s, done, buf);
  }

  lemma ReadInStep(s: seq<Byte>, done: seq<ClientParser.Message>, buf: seq<Byte>, chunk: seq<Byte>)
    requires ClientCut(s) == ClientCut(buf).After(done) && ParseClient(buf) == Err(Incomplete)
    ensures ClientCut(s + chunk) == ClientCut(buf + chunk).After(done)
  {
    hide ParseClient, Framer.Lawful;
    ClientFramerLawful();
    ClientFramer().InStepRead(s, done, buf, chunk);
  }

  ghost function Initial(bpp: nat): (e: Effects) { Effects(None, None, [], bpp, [], []) }
}
