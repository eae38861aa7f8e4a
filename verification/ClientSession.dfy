/** What a client sees of the message handling: transparency, and how audio commands are answered. */
module ClientSession {
  import opened Bytes
  import opened ClientParser
  import opened ClientHalf
  import opened ClientGrammar

  /** An idle half has forwarded exactly the messages of its stream, audio commands apart. */
  lemma IdleTransparent(half: WriteHalf)
    requires half.Idle()
    ensures half.buf == ClientCut(half.received).rest && half.handled == ClientCut(half.received).messages
    ensures half.toServer == Flatten(Forwarded(ClientCut(half.received).messages))
  {
    hide Forwarded, Flatten, ParseClient, HandleAll;
    assert half.handled + [] == half.handled;
    Transparency(Initial(half.start), half.handled, half.opens);
    assert [] + Flatten(Forwarded(half.handled)) == Flatten(Forwarded(half.handled));
  }

  lemma {:induction false} AllForwarded(ms: seq<Message>)
    requires forall m | m in ms :: !Intercepted(m)
    ensures Forwarded(ms) == ClientFramer().Parts(ms)
    decreases |ms|
  {
    if ms != [] {
      var n := |ms| - 1;
      AllForwarded(ms[..n]);
      assert ClientFramer().Parts(ms) == ClientFramer().Parts(ms[..n]) + [ms[n].payload];
    }
  }

  /** Without audio commands the server gets the client's bytes, short of an unfinished message. */
  lemma WithoutAudioVerbatim(half: WriteHalf)
    requires half.Idle()
    requires forall m | m in half.handled :: !Intercepted(m)
    ensures half.toServer + half.buf == half.received
  {
    hide Forwarded, Flatten, ParseClient, HandleAll;
    IdleTransparent(half);
    AllForwarded(half.handled);
    ClientFramerLawful();
    ClientFramer().CutConserves(half.received);
  }

  /** This message was acknowledged with a 1: an encoder was opened for it. */
  ghost predicate Acknowledged(m: Message, streamOk: bool) { m.StartEncoder? && m.enabled && streamOk }

  ghost predicate Disables(m: Message) { m.StartEncoder? && !m.enabled }

  /** Some StartEncoder was acknowledged, and nothing has disabled or used up its encoder since. */
  ghost predicate Armed(ms: seq<Message>, opens: seq<bool>)
    requires |ms| == |opens|
  {
    exists j | 0 <= j < |ms| :: ArmedBy(ms, opens, j)
  }

  ghost predicate ArmedBy(ms: seq<Message>, opens: seq<bool>, j: nat)
    requires |ms| == |opens| && j < |ms|
  {
    && Acknowledged(ms[j], opens[j])
    && forall k | j < k < |ms| :: !Disables(ms[k]) && !ms[k].StartContinuousUpdates?
  }

  lemma ArmedSnoc(ms: seq<Message>, opens: seq<bool>)
    requires |ms| == |opens| > 0
    ensures var n := |ms| - 1;
            var m := ms[n];
            Armed(ms, opens) <==>
              Acknowledged(m, opens[n]) ||
              (!Disables(m) && !m.StartContinuousUpdates? && Armed(ms[..n], opens[..n]))
  {
    var n := |ms| - 1;
    if Acknowledged(ms[n], opens[n]) {
      assert ArmedBy(ms, opens, n);
    } else if Armed(ms[..n], opens[..n]) && !Disables(ms[n]) && !ms[n].StartContinuousUpdates? {
      var j :| 0 <= j < n && ArmedBy(ms[..n], opens[..n], j);
      assert forall k | j < k < n :: ms[k] == ms[..n][k];
      assert ArmedBy(ms, opens, j);
    }
    if Armed(ms, opens) {
      var j :| 0 <= j < |ms| && ArmedBy(ms, opens, j);
      if j < n {
        assert forall k | j < k < n :: ms[k] == ms[..n][k];
        assert ArmedBy(ms[..n], opens[..n], j);
      }
    }
  }

  /** The half holds an encoder exactly when it is armed; failed requests in between change nothing. */
  lemma {:induction false} EncoderIffArmed(bpp: nat, ms: seq<Message>, opens: seq<bool>)
    requires |ms| == |opens|
    ensures HandleAll(Initial(bpp), ms, opens).audio.Some? <==> Armed(ms, opens)
    decreases |ms|
  {
    if ms != [] {
      var n := |ms| - 1;
      EncoderIffArmed(bpp, ms[..n], opens[..n]);
      ArmedSnoc(ms, opens);
    }
  }

  /** The encoder held is the one of the latest acknowledged request. */
  lemma {:induction false} EncoderIsLatest(bpp: nat, ms: seq<Message>, opens: seq<bool>, j: nat)
    requires |ms| == |opens| && j < |ms| && ArmedBy(ms, opens, j)
    requires forall k | j < k < |ms| :: !Acknowledged(ms[k], opens[k])
    ensures HandleAll(Initial(bpp), ms, opens).audio == Some(Config(ms[j].channels, ms[j].codec, ms[j].kbps))
    decreases |ms|
  {
    var n := |ms| - 1;
    if j < n {
      assert forall k | j <= k < n :: ms[k] == ms[..n][k] && opens[k] == opens[..n][k];
      EncoderIsLatest(bpp, ms[..n], opens[..n], j);
    }
  }

  /** StartContinuousUpdates is answered 1, and a task is spawned, exactly when armed. */
  lemma UpdatesAnswered(bpp: nat, ms: seq<Message>, opens: seq<bool>, m: Message, streamOk: bool)
    requires |ms| == |opens| && m.StartContinuousUpdates?
    ensures var before := HandleAll(Initial(bpp), ms, opens);
            var after := HandleAll(Initial(bpp), ms + [m], opens + [streamOk]);
            && after.toClient == before.toClient + [AudioReply(CONTINUOUS_UPDATES, Armed(ms, opens))]
            && |after.tasks| == |before.tasks| + (if Armed(ms, opens) then 1 else 0)
  {
    EncoderIffArmed(bpp, ms, opens);
    HandleAllSnoc(Initial(bpp), ms, opens, m, streamOk);
  }

  /** The `j`-th message was granted a task and nothing has disabled the encoder since. */
  ghost predicate RunningSince(ms: seq<Message>, opens: seq<bool>, j: nat)
    requires |ms| == |opens| && j < |ms|
  {
    && ms[j].StartContinuousUpdates? && Armed(ms[..j], opens[..j])
    && forall k | j < k < |ms| :: !Disables(ms[k])
  }

  ghost predicate Running(ms: seq<Message>, opens: seq<bool>)
    requires |ms| == |opens|
  {
    exists j | 0 <= j < |ms| :: RunningSince(ms, opens, j)
  }

  lemma RunningSnoc(ms: seq<Message>, opens: seq<bool>)
    requires |ms| == |opens| > 0
    ensures var n := |ms| - 1;
            var m := ms[n];
            Running(ms, opens) <==>
              (m.StartContinuousUpdates? && Armed(ms[..n], opens[..n])) ||
              (!Disables(m) && Running(ms[..n], opens[..n]))
  {
    hide Armed;
    var n := |ms| - 1;
    if ms[n].StartContinuousUpdates? && Armed(ms[..n], opens[..n]) {
      assert RunningSince(ms, opens, n);
    } else if Running(ms[..n], opens[..n]) && !Disables(ms[n]) {
      var j :| 0 <= j < n && RunningSince(ms[..n], opens[..n], j);
      assert ms[..n][..j] == ms[..j] && opens[..n][..j] == opens[..j];
      assert forall k | j < k < n :: ms[k] == ms[..n][k];
      assert RunningSince(ms, opens, j);
    }
    if Running(ms, opens) {
      var j :| 0 <= j < |ms| && RunningSince(ms, opens, j);
      if j < n {
        assert ms[..n][..j] == ms[..j] && opens[..n][..j] == opens[..j];
        assert forall k | j < k < n :: ms[k] == ms[..n][k];
        assert RunningSince(ms[..n], opens[..n], j);
      }
    }
  }

  /** The stop channel kept is that of the latest task, as long as nothing disables the encoder. */
  lemma {:induction false} StopIffRunning(bpp: nat, ms: seq<Message>, opens: seq<bool>)
    requires |ms| == |opens|
    ensures var e := HandleAll(Initial(bpp), ms, opens);
            && (e.stop.Some? <==> Running(ms, opens))
            && (e.stop.Some? ==> |e.tasks| > 0 && e.stop.value == |e.tasks| - 1)
    decreases |ms|
  {
    hide Armed;
    if ms != [] {
      var n := |ms| - 1;
      StopIffRunning(bpp, ms[..n], opens[..n]);
      EncoderIffArmed(bpp, ms[..n], opens[..n]);
      RunningSnoc(ms, opens);
    }
  }

  /** The shared pixel size stays within what the server parser's size bounds assume. */
  lemma {:induction false} PixelSizeBounded(bpp: nat, ms: seq<Message>, opens: seq<bool>)
    requires |ms| == |opens| && bpp <= 31
    ensures HandleAll(Initial(bpp), ms, opens).bpp <= 31
    decreases |ms|
  {
    if ms != [] { PixelSizeBounded(bpp, ms[..|ms| - 1], opens[..|ms| - 1]); }
  }

  // The pixel size, by the fields of the messages.

  /** Without a change of format, the pixel size is the first one. */
  lemma {:induction false} FormatUnchanged(bpp: nat, ms: seq<Message>, opens: seq<bool>)
    requires |ms| == |opens| && forall k | 0 <= k < |ms| :: !ms[k].SetPixelFormat?
    ensures HandleAll(Initial(bpp), ms, opens).bpp == bpp
    decreases |ms|
  {
    if ms != [] {
      var n := |ms| - 1;
      FormatUnchanged(bpp, ms[..n], opens[..n]);
    }
  }

  /** Otherwise it is the whole bytes of the bits per pixel of the latest format. */
  lemma {:induction false} LatestFormat(bpp: nat, ms: seq<Message>, opens: seq<bool>, j: nat, g: Command)
    requires |ms| == |opens| && j < |ms|
    requires g.ChangeFormat? && g.Valid() && ms[j] == g.Message()
    requires forall k | j < k < |ms| :: !ms[k].SetPixelFormat?
    ensures HandleAll(Initial(bpp), ms, opens).bpp == g.format.bitsPerPixel / 8
    decreases |ms|
  {
    hide Command.Encode;
    var n := |ms| - 1;
    if j < n {
      LatestFormat(bpp, ms[..n], opens[..n], j, g);
    } else {
      FormatPrinted(g);
    }
  }

  /** Every SetPixelFormat the parser returns has such fields. */
  lemma FormatFields(s: seq<Byte>, m: Message) returns (g: Command)
    requires ParseClient(s) == Ok(m) && m.SetPixelFormat?
    ensures g.ChangeFormat? && g.Valid() && m == g.Message()
  {
    hide ParseClient, Command.Encode, Command.Valid;
    ClientGrammar.ClientGrammar(s, m);
    g :| g.Valid() && g.Encode() <= s && Recognizable(g, s) && m == g.Message();
  }

  // The bytes of the answers.

  /** The answers to the commands: type 245, submessage 0 or 2, length 1 and the flag; nothing to other messages. */
  lemma AnswersPrinted(e: Effects, m: Message, streamOk: bool)
    requires !m.SetEncodings?
    ensures var answers := Handle(e, m, streamOk).toClient;
            if m.StartEncoder? then
              answers == e.toClient + [[245, 0, 0, 1, if m.enabled && streamOk then 1 else 0]]
            else if m.StartContinuousUpdates? then
              answers == e.toClient + [[245, 2, 0, 1, if e.audio.Some? then 1 else 0]]
            else
              answers == e.toClient
  {
  }

  /** Which messages are audio commands, by their first two bytes. */
  lemma InterceptedBytes(m: Message)
    requires WellFormed(m.payload) && m == MessageOf(m.payload)
    ensures Intercepted(m) <==> m.payload[0] == 245 && (m.payload[1] == 0 || m.payload[1] == 2)
  {
  }

  /** A list of encodings is confirmed once for each time it names the audio pseudo-encoding. */
  lemma EncodingsConfirmed(e: Effects, g: Command, streamOk: bool)
    requires g.Encodings? && g.Valid()
    ensures exists c: seq<seq<Byte>> ::
              && Handle(e, g.Message(), streamOk).toClient == e.toClient + c
              && |c| == multiset(g.list)[0x5270_6C41]
              && forall k | 0 <= k < |c| :: c[k] == AUDIO_SUPPORT
  {
    hide EncodeList, Be16;
    var d := g.Encode();
    assert d[4..] == EncodeList(g.list);
    hide Command.Encode;
    ListConfirmed(d, 4, g.list);
    assert Handle(e, g.Message(), streamOk).toClient == e.toClient + Confirmations(d, 4);
  }

  lemma {:induction false} ListConfirmed(d: seq<Byte>, p: nat, list: seq<int>)
    requires p <= |d| && d[p..] == EncodeList(list) && forall i | 0 <= i < |list| :: IsI32(list[i])
    ensures var c := Confirmations(d, p);
            |c| == multiset(list)[0x5270_6C41] && forall k | 0 <= k < |c| :: c[k] == AUDIO_SUPPORT
    decreases |list|
  {
    hide I32Of, EncodeList, Confirmations;
    if list == [] {
      assert p == |d| by { ListEnd(d, p); }
      ConfirmationsEnd(d);
    } else {
      ListFirst(d, p, list);
      ListConfirmed(d, p + 4, list[1..]);
      ConfirmationsNext(d, p);
      Occurrences(list, 0x5270_6C41);
    }
  }

  lemma ListEnd(d: seq<Byte>, p: nat)
    requires p <= |d| && d[p..] == EncodeList([])
    ensures p == |d|
  {
  }

  lemma ListFirst(d: seq<Byte>, p: nat, list: seq<int>)
    requires p <= |d| && list != [] && IsI32(list[0]) && d[p..] == EncodeList(list)
    ensures p + 4 <= |d| && I32Of(d, p) == list[0] && d[p + 4..] == EncodeList(list[1..])
  {
    hide BeI32, I32Of;
    assert d[p..p + 4] == d[p..][..4] == BeI32(list[0]);
    assert d[p + 4..] == d[p..][4..];
    ReadsBackI32(d, p, list[0]);
  }

  lemma Occurrences(list: seq<int>, x: int)
    requires list != []
    ensures multiset(list)[x] == multiset(list[1..])[x] + (if list[0] == x then 1 else 0)
  {
    assert list == [list[0]] + list[1..];
  }

  /** The confirmation: one empty rectangle, of the audio pseudo-encoding, version 0, codecs 0 and 1. */
  lemma ConfirmationReads()
    ensures |AUDIO_SUPPORT| == 24 && AUDIO_SUPPORT[0] == 0 && U16Of(AUDIO_SUPPORT, 2) == 1
    ensures U16Of(AUDIO_SUPPORT, 4) == U16Of(AUDIO_SUPPORT, 6) == 0
    ensures U16Of(AUDIO_SUPPORT, 8) == U16Of(AUDIO_SUPPORT, 10) == 0
    ensures I32Of(AUDIO_SUPPORT, 12) == 0x5270_6C41 && U16Of(AUDIO_SUPPORT, 16) == 0 && U16Of(AUDIO_SUPPORT, 18) == 2
    ensures U16Of(AUDIO_SUPPORT, 20) == 0 && U16Of(AUDIO_SUPPORT, 22) == 1
  {
  }

  /** The task granted has the parameters of the latest acknowledged request. */
  lemma TaskConfigured(bpp: nat, ms: seq<Message>, opens: seq<bool>, j: nat, m: Message, streamOk: bool)
    requires |ms| == |opens| && j < |ms| && ArmedBy(ms, opens, j) && m.StartContinuousUpdates?
    requires forall k | j < k < |ms| :: !Acknowledged(ms[k], opens[k])
    ensures HandleAll(Initial(bpp), ms + [m], opens + [streamOk]).tasks ==
            HandleAll(Initial(bpp), ms, opens).tasks + [Config(ms[j].channels, ms[j].codec, ms[j].kbps)]
  {
    EncoderIsLatest(bpp, ms, opens, j);
    HandleAllSnoc(Initial(bpp), ms, opens, m, streamOk);
  }
}
