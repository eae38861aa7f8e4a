/** src/audio/mod.rs with the Opus encoder: timestamps, the audio message, and the capture loop. */
module AudioStream {
  import opened Bytes
  import opened Io
  import opened Webm
  import ServerParser

  const TWO_64 := 0x1_0000_0000_0000_0000
  const MAX_FRAME_LEN := 4512
  const FRAME_LEN_MS := 40

  // Timestamps.

  /** The timestamp after captures that end at the given times since the first one. */
  function Stamp(frameLen: nat, elapsed: seq<nat>): (t: nat)
    decreases |elapsed|
  {
    if elapsed == [] then (TWO_64 - frameLen) % TWO_64
    else
      var n := |elapsed| - 1;
      var advanced := (Stamp(frameLen, elapsed[..n]) + frameLen) % TWO_64;
      if advanced >= elapsed[n] then advanced else elapsed[n]
  }

  /** `v` is the largest of e_j + frameLen * (frames since the j-th). */
  ghost predicate IsPeak(frameLen: nat, elapsed: seq<nat>, v: nat) {
    && (exists j | 0 <= j < |elapsed| :: v == After(frameLen, elapsed, j))
    && forall j | 0 <= j < |elapsed| :: After(frameLen, elapsed, j) <= v
  }

  function After(frameLen: nat, elapsed: seq<nat>, j: nat): (v: nat)
    requires j < |elapsed|
  {
    elapsed[j] + Frames(frameLen, |elapsed| - 1 - j)
  }

  function Frames(frameLen: nat, n: nat): (t: nat) { frameLen * n }

  lemma AfterOne(frameLen: nat, elapsed: seq<nat>, j: nat)
    requires j + 1 < |elapsed|
    ensures After(frameLen, elapsed, j) == After(frameLen, elapsed[..|elapsed| - 1], j) + frameLen
  {
  }

  lemma AfterLast(frameLen: nat, elapsed: seq<nat>)
    requires elapsed != []
    ensures After(frameLen, elapsed, |elapsed| - 1) == elapsed[|elapsed| - 1]
  {
  }

  /** One more capture moves the peak by a frame, or to its own time. */
  lemma PeakStep(frameLen: nat, elapsed: seq<nat>, u: nat, v: nat)
    requires |elapsed| > 1 && IsPeak(frameLen, elapsed[..|elapsed| - 1], u)
    ensures var e := elapsed[|elapsed| - 1];
            IsPeak(frameLen, elapsed, v) <==> v == if u + frameLen >= e then u + frameLen else e
  {
    hide After;
    var n := |elapsed| - 1;
    var before := elapsed[..n];
    AfterLast(frameLen, elapsed);
    forall j | 0 <= j < n ensures After(frameLen, elapsed, j) == After(frameLen, before, j) + frameLen {
      AfterOne(frameLen, elapsed, j);
    }
    var i :| 0 <= i < n && u == After(frameLen, before, i);
    assert After(frameLen, elapsed, i) == u + frameLen;
  }

  lemma {:induction false} Peak(frameLen: nat, elapsed: seq<nat>) returns (v: nat)
    requires elapsed != []
    ensures IsPeak(frameLen, elapsed, v)
    decreases |elapsed|
  {
    var n := |elapsed| - 1;
    AfterLast(frameLen, elapsed);
    if n == 0 {
      return elapsed[n];
    }
    var u := Peak(frameLen, elapsed[..n]);
    v := if u + frameLen >= elapsed[n] then u + frameLen else elapsed[n];
    PeakStep(frameLen, elapsed, u, v);
  }

  /** Without wrap-around past 2^64, the timestamp is the peak. */
  lemma {:induction false} StampIsPeak(frameLen: nat, elapsed: seq<nat>, v: nat)
    requires elapsed != [] && 0 < frameLen < 0x1_0000_0000_0000_0000
    requires IsPeak(frameLen, elapsed, v) && v < 0x1_0000_0000_0000_0000
    ensures Stamp(frameLen, elapsed) == v
    decreases |elapsed|
  {
    hide IsPeak;
    var n := |elapsed| - 1;
    if n == 0 {
      FirstPeak(frameLen, elapsed, v);
      assert Stamp(frameLen, elapsed[..0]) == TWO_64 - frameLen;
    } else {
      var u := Peak(frameLen, elapsed[..n]);
      PeakStep(frameLen, elapsed, u, v);
      StampIsPeak(frameLen, elapsed[..n], u);
    }
  }

  lemma FirstPeak(frameLen: nat, elapsed: seq<nat>, v: nat)
    requires |elapsed| == 1 && IsPeak(frameLen, elapsed, v)
    ensures v == elapsed[0]
  {
    AfterLast(frameLen, elapsed);
  }

  lemma StampNext(frameLen: nat, elapsed: seq<nat>, e: nat)
    ensures var advanced := (Stamp(frameLen, elapsed) + frameLen) % TWO_64;
            Stamp(frameLen, elapsed + [e]) == if advanced >= e then advanced else e
  {
    assert (elapsed + [e])[..|elapsed|] == elapsed;
  }

  /** Timestamps advance by at least a frame, dropped frames included, until they wrap. */
  lemma StampAdvances(frameLen: nat, elapsed: seq<nat>, e: nat)
    requires Stamp(frameLen, elapsed) + frameLen < 0x1_0000_0000_0000_0000
    ensures Stamp(frameLen, elapsed + [e]) >= Stamp(frameLen, elapsed) + frameLen
  {
    StampNext(frameLen, elapsed, e);
  }

  // The audio message.

  /** The timestamp field: 31 bits, and the keyframe flag above them. */
  function StampField(timestamp: nat, keyframe: bool): (n: nat)
    ensures n < 0x1_0000_0000
  {
    timestamp % 0x8000_0000 + (if keyframe then 0x8000_0000 else 0)
  }

  /** A frame as it is handed to the channel: one audio message and four more bytes. */
  function AudioVector(data: seq<Byte>, timestamp: nat, keyframe: bool): (v: seq<Byte>)
    ensures |v| == |data| + 12
  {
    VectorHead(|data| + 4, StampField(timestamp, keyframe)) + data + [0, 0, 0, 0]
  }

  /** Message type, submessage type, length and timestamp. */
  function VectorHead(length: nat, field: nat): (d: seq<Byte>)
    requires field < 0x1_0000_0000
    ensures |d| == 8
  {
    [0xF5, 0x01] + Be16(length % 0x1_0000) + Be32(field)
  }

  lemma VectorParts(v: seq<Byte>, data: seq<Byte>, timestamp: nat, keyframe: bool)
    requires |v| == |data| + 12
    ensures v == AudioVector(data, timestamp, keyframe) <==>
            && v[..8] == VectorHead(|data| + 4, StampField(timestamp, keyframe))
            && v[8..8 + |data|] == data
            && v[8 + |data|..] == [0, 0, 0, 0]
  {
    hide VectorHead, StampField;
    assert v == v[..8] + v[8..8 + |data|] + v[8 + |data|..];
    var a := AudioVector(data, timestamp, keyframe);
    assert a[..8] == VectorHead(|data| + 4, StampField(timestamp, keyframe));
    assert a[8..8 + |data|] == data && a[8 + |data|..] == [0, 0, 0, 0];
  }

  /** A reader driven by the length field gets the frame, then an empty update that changes nothing. */
  lemma VectorSplits(data: seq<Byte>, timestamp: nat, keyframe: bool, more: seq<Byte>, bpp: nat)
    requires |data| + 4 <= 0xFFFF
    ensures var v := AudioVector(data, timestamp, keyframe);
            var length := U16Of(v, 2);
            && v[0] == 0xF5 && v[1] == 0x01 && length == 4 + |data|
            && U32Of(v, 4) % 0x8000_0000 == timestamp % 0x8000_0000
            && (U32Of(v, 4) >= 0x8000_0000 <==> keyframe)
            && v[8..4 + length] == data
            && v[4 + length..] == [0, 0, 0, 0]
            && ServerParser.ParseServer(v[4 + length..] + more, bpp) ==
               Ok(ServerParser.FramebufferUpdate([0, 0, 0, 0]))
  {
    hide AudioVector, StampField;
    var v := AudioVector(data, timestamp, keyframe);
    var field := StampField(timestamp, keyframe);
    VectorParts(v, data, timestamp, keyframe);
    HeadReads(v, |data| + 4, field);
    FieldReads(timestamp, keyframe);
    EmptyUpdate(more, bpp);
  }

  lemma FieldReads(timestamp: nat, keyframe: bool)
    ensures var n := StampField(timestamp, keyframe);
            n % 0x8000_0000 == timestamp % 0x8000_0000 && (n >= 0x8000_0000 <==> keyframe)
  {
  }

  lemma HeadReads(v: seq<Byte>, length: nat, field: nat)
    requires field < 0x1_0000_0000 && length <= 0xFFFF && |v| >= 8 && v[..8] == VectorHead(length, field)
    ensures U16Of(v, 2) == length && U32Of(v, 4) == field
  {
    hide Be16, Be32, U16Of, U32Of;
    var h := v[..8];
    assert v[2..4] == h[2..4] == Be16(length) && v[4..8] == h[4..8] == Be32(field);
    ReadsBackU16(v, 2, length);
    ReadsBackU32(v, 4, field);
  }

  /** Shifting and masking four times writes the big-endian number. */
  lemma ShiftedBytes(n: nat)
    requires n < 0x1_0000_0000
    ensures Big4(n) == Be32(n)
  {
    var high, low := n / 0x1_0000, n % 0x1_0000;
    assert n / 0x100_0000 == high / 256 && n / 0x100 == high * 256 + low / 256;
  }

  lemma HeadBytes(d: seq<Byte>, length: nat, field: nat)
    requires field < 0x1_0000_0000 && length <= 0xFFFF && |d| == 8
    requires d[0] == 0xF5 && d[1] == 0x01 && d[2] == length / 256 && d[3] == length % 256
    requires d[4..] == Big4(field)
    ensures d == VectorHead(length, field)
  {
    hide Big4, Be32;
    ShiftedBytes(field);
    assert d == [d[0], d[1]] + [d[2], d[3]] + d[4..];
  }

  lemma EmptyUpdate(more: seq<Byte>, bpp: nat)
    ensures ServerParser.ParseServer([0, 0, 0, 0] + more, bpp) == Ok(ServerParser.FramebufferUpdate([0, 0, 0, 0]))
  {
    var s := [0, 0, 0, 0] + more;
    assert U16Of(s, 2) == 0;
    assert ServerParser.MessageEnd(s, bpp) == Ok(4);
    assert s[..4] == [0, 0, 0, 0];
  }

  /** What libopus, the random source, PulseAudio, the channel and the stop channel do in one round. */
  datatype Slot = Free | Full | Closed

  datatype Round = Round(
    stopped: bool,
    captured: Option<nat>,
    slot: Slot,
    packet: Option<seq<Byte>>,
    uid: Option<seq<Byte>>)
  {
    ghost predicate Valid() {
      && (captured.Some? ==> captured.value < 0x1_0000_0000_0000_0000)
      && (packet.Some? ==> |packet.value| <= 4000)
      && (uid.Some? ==> |uid.value| == 7)
    }
  }

  /** A Cluster, and the initialization segment before a keyframe. */
  function MuxedSize(packet: nat, keyframe: bool): (n: nat) { (if keyframe then 214 else 0) + 23 + packet }

  class OpusEncoder {
    const muxer: Muxer
    var wroteInitializationSegment: bool

    constructor (channels: Byte, internalDelay: nat)
      ensures muxer == Muxer(48000, channels, internalDelay) && !wroteInitializationSegment
    {
      muxer := Muxer(48000, channels, internalDelay);
      wroteInitializationSegment := false;
    }

    /** The flag is set before anything can fail; the result is the size written and the keyframe flag. */
    method EncodeFrame(timestamp: nat, packet: Option<seq<Byte>>, uid: Option<seq<Byte>>, w: SliceWriter)
      returns (r: Option<(nat, bool)>)
      requires muxer.sampleRate > 0 && timestamp < TWO_64 && w.Valid() && w.pos == w.start
      requires uid.Some? ==> |uid.value| == 7
      modifies this, w, w.buf
      ensures wroteInitializationSegment && w.Valid() && w.Untouched(w.start)
      ensures r.Some? <==>
                && packet.Some? && (old(wroteInitializationSegment) || uid.Some?)
                && w.start + MuxedSize(|packet.value|, !old(wroteInitializationSegment)) <= w.buf.Length
      ensures r.Some? ==>
                && r.value.1 == !old(wroteInitializationSegment)
                && w.pos == w.start + r.value.0
                && w.Output() == Muxed(muxer, Identifier(uid), packet.value, timestamp, r.value.1)
    {
      hide InitializationSegment, Cluster;
      var keyframe := !wroteInitializationSegment;
      if keyframe {
        wroteInitializationSegment := true;
      }
      if packet.None? {
        return None;
      }
      // The random track identifier is drawn only when the segment is written.
      if keyframe && uid.None? {
        return None;
      }
      assert w.Output() == [];
      var ok := WriteFrame(muxer, Identifier(uid), w, packet.value, timestamp, keyframe);
      assert [] + Muxed(muxer, Identifier(uid), packet.value, timestamp, keyframe)
          == Muxed(muxer, Identifier(uid), packet.value, timestamp, keyframe);
      if !ok { return None; }
      return Some((w.pos - w.start, keyframe));
    }
  }

  /** Stands in where no identifier is drawn. */
  const NO_UID: seq<Byte> := [0, 0, 0, 0, 0, 0, 0]

  function Identifier(uid: Option<seq<Byte>>): (u: seq<Byte>) { if uid.Some? then uid.value else NO_UID }

  /** A frame that was sent: what went into it. */
  datatype Sent = Sent(packet: seq<Byte>, uid: seq<Byte>, timestamp: nat) {
    ghost predicate Valid() { |packet| <= 4000 && |uid| == 7 && timestamp < 0x1_0000_0000_0000_0000 }
  }

  function Container(m: Muxer, f: Sent, keyframe: bool): (d: seq<Byte>)
    requires m.sampleRate > 0 && |f.uid| == 7 && f.timestamp < TWO_64
  {
    Muxed(m, f.uid, f.packet, f.timestamp, keyframe)
  }

  /** The audio message of a frame. */
  function Message(m: Muxer, f: Sent, keyframe: bool): (v: seq<Byte>)
    requires m.sampleRate > 0 && |f.uid| == 7 && f.timestamp < TWO_64
  {
    AudioVector(Container(m, f, keyframe), f.timestamp, keyframe)
  }

  /** What a reader gets from the message of a frame: its type, the container, the timestamp and the key flag. */
  lemma MessageReads(m: Muxer, f: Sent, keyframe: bool, more: seq<Byte>, bpp: nat)
    requires m.sampleRate > 0 && f.Valid()
    ensures var v, data := Message(m, f, keyframe), Muxed(m, f.uid, f.packet, f.timestamp, keyframe);
            && |v| == 12 + |data| && v[0] == 0xF5 && v[1] == 0x01 && U16Of(v, 2) == 4 + |data|
            && U32Of(v, 4) % 0x8000_0000 == f.timestamp % 0x8000_0000
            && (U32Of(v, 4) >= 0x8000_0000 <==> keyframe)
            && v[8..8 + |data|] == data
            && ServerParser.ParseServer(v[8 + |data|..] + more, bpp) ==
               Ok(ServerParser.FramebufferUpdate([0, 0, 0, 0]))
  {
    hide Muxed, AudioVector, ServerParser.ParseServer, U16Of, U32Of;
    VectorSplits(Container(m, f, keyframe), f.timestamp, keyframe, more, bpp);
  }

  /** The containers of a task's frames, the first of them with the segment. */
  function Containers(m: Muxer, fs: seq<Sent>): (d: seq<seq<Byte>>)
    requires m.sampleRate > 0 && forall i | 0 <= i < |fs| :: fs[i].Valid()
  {
    seq(|fs|, i requires 0 <= i < |fs| && fs[i].Valid() => Container(m, fs[i], i == 0))
  }

  function TimedFrames(fs: seq<Sent>): (d: seq<Timed>) {
    seq(|fs|, i requires 0 <= i < |fs| => Timed(fs[i].timestamp, fs[i].packet))
  }

  /** What a task delivers is one WebM stream: the segment, then Clusters that read back as its frames. */
  lemma TaskStreamReadsBack(m: Muxer, fs: seq<Sent>)
    requires m.sampleRate > 0 && fs != [] && forall i | 0 <= i < |fs| :: fs[i].Valid()
    ensures var s := Flatten(Containers(m, fs));
            && |s| >= 214 && s[..214] == InitializationSegment(m, fs[0].uid)
            && ReadClusters(s[214..]) == Ok(TimedFrames(fs))
  {
    hide InitializationSegment, Cluster, ReadClusters, Flatten, Containers;
    var ts := TimedFrames(fs);
    assert AllMuxable(ts) by {
      forall i | 0 <= i < |ts| ensures Muxable(ts[i]) { assert fs[i].Valid(); }
    }
    hide TimedFrames;
    FramesReadBack(ts);
    ContainersFlatten(m, fs);
  }

  lemma ContainersFlatten(m: Muxer, fs: seq<Sent>)
    requires m.sampleRate > 0 && fs != [] && (forall i | 0 <= i < |fs| :: fs[i].Valid()) && AllMuxable(TimedFrames(fs))
    ensures Flatten(Containers(m, fs)) == InitializationSegment(m, fs[0].uid) + Flatten(ClustersOf(TimedFrames(fs)))
  {
    hide InitializationSegment, Cluster, ReadClusters;
    var containers, clusters := Containers(m, fs), ClustersOf(TimedFrames(fs));
    var segment := InitializationSegment(m, fs[0].uid);
    assert containers[0] == segment + clusters[0];
    assert containers[1..] == clusters[1..] by {
      forall i | 1 <= i < |fs| ensures containers[i] == clusters[i] { LaterContainer(m, fs[i]); }
    }
    hide Containers, ClustersOf;
    assert segment + clusters[0] + Flatten(clusters[1..]) == segment + (clusters[0] + Flatten(clusters[1..]));
  }

  lemma LaterContainer(m: Muxer, f: Sent)
    requires m.sampleRate > 0 && f.Valid()
    ensures Container(m, f, false) == Cluster(f.packet, f.timestamp)
  {
    assert [] + Cluster(f.packet, f.timestamp) == Cluster(f.packet, f.timestamp);
  }

  /** Every frame sent carries the timestamp of its capture; captures are sent in order. */
  ghost predicate Recorded(elapsed: seq<nat>, frames: seq<Sent>, captures: seq<nat>) {
    && |captures| == |frames|
    && (forall k | 0 <= k < |frames| :: Stamped(elapsed, frames[k], captures[k]))
    && (forall j, k | 0 <= j < k < |captures| :: captures[j] < captures[k])
  }

  ghost predicate Stamped(elapsed: seq<nat>, f: Sent, c: nat) {
    f.Valid() && c < |elapsed| && f.timestamp == Stamp(40, elapsed[..c + 1])
  }

  lemma StampedCapture(elapsed: seq<nat>, e: nat, f: Sent, c: nat)
    requires Stamped(elapsed, f, c)
    ensures Stamped(elapsed + [e], f, c) && c < |elapsed|
  {
    hide Stamp;
    assert (elapsed + [e])[..c + 1] == elapsed[..c + 1];
  }

  /** Captures, packets and identifier are those of the rounds; messages are those of frames, the first a keyframe. */
  ghost predicate Faithful(m: Muxer, rounds: seq<Round>, elapsed: seq<nat>, frames: seq<Sent>, captures: seq<nat>,
                           sent: seq<seq<Byte>>)
    requires m.sampleRate > 0 && |elapsed| <= |rounds|
  {
    && |sent| == |frames| == |captures|
    && (forall i | 0 <= i < |elapsed| :: rounds[i].captured == Some(elapsed[i]))
    && (forall k | 0 <= k < |frames| ::
          frames[k].Valid() && captures[k] < |elapsed|
          && rounds[captures[k]].packet == Some(frames[k].packet)
          && (k == 0 ==> rounds[captures[k]].uid == Some(frames[k].uid))
          && sent[k] == Message(m, frames[k], k == 0))
  }

  lemma NothingSent(m: Muxer, rounds: seq<Round>)
    requires m.sampleRate > 0
    ensures Faithful(m, rounds, [], [], [], []) && Selected(rounds, 0, [])
  {
  }

  lemma FaithfulCapture(m: Muxer, rounds: seq<Round>, elapsed: seq<nat>, e: nat, frames: seq<Sent>, captures: seq<nat>,
                        sent: seq<seq<Byte>>)
    requires m.sampleRate > 0 && |elapsed| < |rounds| && rounds[|elapsed|].captured == Some(e)
    requires Faithful(m, rounds, elapsed, frames, captures, sent)
    ensures Faithful(m, rounds, elapsed + [e], frames, captures, sent)
  {
  }

  lemma FaithfulSend(m: Muxer, rounds: seq<Round>, elapsed: seq<nat>, frames: seq<Sent>, captures: seq<nat>,
                     sent: seq<seq<Byte>>, f: Sent)
    requires m.sampleRate > 0 && 0 < |elapsed| <= |rounds|
    requires Faithful(m, rounds, elapsed, frames, captures, sent)
    requires f.Valid() && rounds[|elapsed| - 1].packet == Some(f.packet)
    requires frames == [] ==> rounds[|elapsed| - 1].uid == Some(f.uid)
    ensures Faithful(m, rounds, elapsed, frames + [f], captures + [|elapsed| - 1], sent + [Message(m, f, frames == [])])
  {
    hide Message;
  }

  /** None of the first `n` rounds found the channel closed; those with room were sent, and nothing else. */
  ghost predicate Selected(rounds: seq<Round>, n: nat, captures: seq<nat>) {
    && n <= |rounds| && |captures| == FreeRounds(rounds[..n])
    && (forall i | 0 <= i < n :: !rounds[i].slot.Closed? && (i in captures <==> rounds[i].slot.Free?))
    && forall k | 0 <= k < |captures| :: captures[k] < n
  }

  function FreeRounds(rounds: seq<Round>): (n: nat)
    decreases |rounds|
  {
    if rounds == [] then 0
    else FreeRounds(rounds[..|rounds| - 1]) + (if rounds[|rounds| - 1].slot.Free? then 1 else 0)
  }

  lemma SelectedNext(rounds: seq<Round>, n: nat, captures: seq<nat>)
    requires n < |rounds| && Selected(rounds, n, captures) && !rounds[n].slot.Closed?
    ensures Selected(rounds, n + 1, if rounds[n].slot.Free? then captures + [n] else captures)
  {
    var now := if rounds[n].slot.Free? then captures + [n] else captures;
    assert rounds[..n + 1][..n] == rounds[..n];
    forall i | 0 <= i <= n ensures i in now <==> rounds[i].slot.Free? {
      assert i in captures + [n] <==> i in captures || i == n;
    }
  }

  /**
   Why a task that has captured `n` frames and served `served` of them is over: it was told to stop, or
   could not read; or the last frame found the channel closed, or could not be encoded.
   */
  ghost predicate Ended(rounds: seq<Round>, n: nat, served: nat, first: bool) {
    && served <= n <= |rounds|
    && (forall i | 0 <= i < n :: !rounds[i].stopped)
    && if served == n then
         n == |rounds| || rounds[n].stopped || rounds[n].captured.None?
       else
         && n == served + 1
         && var last := rounds[served];
            last.slot.Closed? || (last.slot.Free? && (last.packet.None? || (first && last.uid.None?)))
  }

  /** The outcome of the capture loop, after it has captured `elapsed` and sent or dropped `served` frames. */
  ghost predicate Ran(
    m: Muxer, rounds: seq<Round>, elapsed: seq<nat>, frames: seq<Sent>, captures: seq<nat>, sent: seq<seq<Byte>>,
    served: nat)
  {
    && m.sampleRate > 0 && |elapsed| <= |rounds|
    && Recorded(elapsed, frames, captures)
    && Faithful(m, rounds, elapsed, frames, captures, sent)
    && Selected(rounds, served, captures)
    && Ended(rounds, |elapsed|, served, sent == [])
  }

  lemma RecordedCapture(elapsed: seq<nat>, e: nat, frames: seq<Sent>, captures: seq<nat>)
    requires Recorded(elapsed, frames, captures)
    ensures Recorded(elapsed + [e], frames, captures)
  {
    hide Stamped;
    forall k | 0 <= k < |frames| ensures Stamped(elapsed + [e], frames[k], captures[k]) {
      StampedCapture(elapsed, e, frames[k], captures[k]);
    }
  }

  lemma RecordedSend(elapsed: seq<nat>, e: nat, frames: seq<Sent>, captures: seq<nat>, f: Sent)
    requires Recorded(elapsed, frames, captures)
    requires f.Valid() && f.timestamp == Stamp(FRAME_LEN_MS, elapsed + [e])
    ensures Recorded(elapsed + [e], frames + [f], captures + [|elapsed|])
  {
    hide Stamped;
    assert Stamped(elapsed + [e], f, |elapsed|) by { StampedLast(elapsed, e, f); }
    forall k | 0 <= k < |frames| ensures Stamped(elapsed + [e], frames[k], captures[k]) && captures[k] < |elapsed| {
      StampedCapture(elapsed, e, frames[k], captures[k]);
    }
  }

  lemma StampedLast(elapsed: seq<nat>, e: nat, f: Sent)
    requires f.Valid() && f.timestamp == Stamp(FRAME_LEN_MS, elapsed + [e])
    ensures Stamped(elapsed + [e], f, |elapsed|)
  {
    hide Stamp;
    assert (elapsed + [e])[..|elapsed| + 1] == elapsed + [e];
  }

  lemma AllSend(m: Muxer, rounds: seq<Round>, before: seq<nat>, frames: seq<Sent>, captures: seq<nat>,
                sent: seq<seq<Byte>>, f: Sent)
    requires m.sampleRate > 0 && |before| < |rounds|
    requires rounds[|before|].captured.Some? && rounds[|before|].slot.Free?
    requires var elapsed := before + [rounds[|before|].captured.value];
             && Recorded(before, frames, captures) && Faithful(m, rounds, elapsed, frames, captures, sent)
             && f.Valid() && f.timestamp == Stamp(FRAME_LEN_MS, elapsed)
    requires rounds[|before|].packet == Some(f.packet) && Selected(rounds, |before|, captures)
    requires frames == [] ==> rounds[|before|].uid == Some(f.uid)
    ensures var elapsed := before + [rounds[|before|].captured.value];
            var fs, cs := frames + [f], captures + [|before|];
            && Recorded(elapsed, fs, cs) && Faithful(m, rounds, elapsed, fs, cs, sent + [Message(m, f, frames == [])])
            && Selected(rounds, |before| + 1, cs)
  {
    hide Recorded, Stamp, Message, Faithful, Selected, Sent.Valid;
    var e := rounds[|before|].captured.value;
    RecordedSend(before, e, frames, captures, f);
    FaithfulSend(m, rounds, before + [e], frames, captures, sent, f);
    SelectedNext(rounds, |before|, captures);
  }

  /** A capture that has been opened: the encoder, the clock state and the counters. */
  class Stream {
    const enc: OpusEncoder
    var timestamp: nat
    var started: bool
    var droppedFrames: nat
    // Histories: the times of all captures, the frames sent, and the capture each of them was.
    ghost var elapsed: seq<nat>
    ghost var frames: seq<Sent>
    ghost var captures: seq<nat>

    constructor (enc: OpusEncoder)
      requires enc.muxer.sampleRate > 0 && !enc.wroteInitializationSegment
      ensures this.enc == enc && Valid() && elapsed == [] && frames == [] && droppedFrames == 0
    {
      this.enc := enc;
      timestamp := (TWO_64 - FRAME_LEN_MS) % TWO_64;
      started, droppedFrames := false, 0;
      elapsed, frames, captures := [], [], [];
    }

    /** The encoder has written its segment exactly when a frame has been sent. */
    ghost predicate Valid()
      reads this, enc
    {
      && enc.muxer.sampleRate > 0
      && timestamp == Stamp(FRAME_LEN_MS, elapsed) < TWO_64
      && |captures| == |frames|
      && (enc.wroteInitializationSegment <==> frames != [])
      && Recorded(elapsed, frames, captures)
    }

    /** `wrapping_add`, then the maximum with the time since the first capture. */
    method ReadFrame(captured: Option<nat>) returns (ok: bool)
      requires Valid() && (captured.Some? ==> captured.value < TWO_64)
      modifies `timestamp, `started, `elapsed
      ensures Valid() && (ok <==> captured.Some?)
      ensures elapsed == if ok then old(elapsed) + [captured.value] else old(elapsed)
    {
      hide Recorded, Stamp;
      if captured.None? { return false; }
      started := true;
      var advanced := (timestamp + FRAME_LEN_MS) % TWO_64;
      timestamp := if advanced >= captured.value then advanced else captured.value;
      StampNext(FRAME_LEN_MS, elapsed, captured.value);
      RecordedCapture(elapsed, captured.value, frames, captures);
      elapsed := elapsed + [captured.value];
      return true;
    }

    /** The message is built in a zeroed buffer; two bytes, the container from 8 on, then the six others. */
    method EncodeFrame(packet: Option<seq<Byte>>, uid: Option<seq<Byte>>) returns (r: Option<seq<Byte>>)
      requires enc.muxer.sampleRate > 0 && timestamp < TWO_64
      requires packet.Some? ==> |packet.value| <= 4000
      requires uid.Some? ==> |uid.value| == 7
      modifies enc
      ensures enc.wroteInitializationSegment
      ensures r.Some? <==> packet.Some? && (old(enc.wroteInitializationSegment) || uid.Some?)
      ensures r.Some? ==>
                var keyframe := !old(enc.wroteInitializationSegment);
                var data := Muxed(enc.muxer, Identifier(uid), packet.value, timestamp, keyframe);
                |data| + 12 <= 4512 && r.value == AudioVector(data, timestamp, keyframe)
    {
      hide Muxed, StampField, AudioVector, SliceWriter.Output;
      var payload := new Byte[MAX_FRAME_LEN](_ => 0);
      payload[0], payload[1] := 0xF5, 0x01;
      var w := new SliceWriter(payload, 8);
      var encoded := enc.EncodeFrame(timestamp, packet, uid, w);
      if encoded.None? { return None; }
      var (written, keyframe) := encoded.value;
      assert w.Output() == payload[8..8 + written] by { OutputIs(w); }
      if written + 4 > 0xFFFF { return None; }
      var v := Finish(payload, written, timestamp, keyframe);
      return Some(v);
    }

    /**
     The capture loop: every round captures, and encodes only when the channel has room. However many
     captures are dropped, the first frame sent is the keyframe with the segment, and no other is.
     */
    method Run(rounds: seq<Round>) returns (sent: seq<seq<Byte>>)
      requires Valid() && frames == [] && elapsed == [] && droppedFrames == 0
      requires forall i | 0 <= i < |rounds| :: rounds[i].Valid()
      modifies this, enc
      ensures Ran(enc.muxer, rounds, elapsed, frames, captures, sent, droppedFrames + |sent|)
    {
      hide Recorded, Stamp, AudioVector, Muxed, Faithful, Selected;
      sent := [];
      var i := 0;
      NothingSent(enc.muxer, rounds);
      while i < |rounds|
        invariant i <= |rounds| && Valid() && |sent| == |frames|
        invariant |elapsed| == i == droppedFrames + |sent|
        invariant Faithful(enc.muxer, rounds, elapsed, frames, captures, sent)
        invariant Selected(rounds, i, captures)
        invariant forall j | 0 <= j < i :: !rounds[j].stopped
      {
        var round := rounds[i];
        assert round.Valid();
        if round.stopped { break; }
        ghost var before := elapsed;
        var ok := ReadFrame(round.captured);
        if !ok { break; }
        FaithfulCapture(enc.muxer, rounds, before, round.captured.value, frames, captures, sent);
        if round.slot.Full? {
          droppedFrames := droppedFrames + 1;
          SelectedNext(rounds, i, captures);
          i := i + 1;
          continue;
        }
        if round.slot.Closed? { break; }
        var payload := EncodeFrame(round.packet, round.uid);
        if payload.None? { break; }
        ghost var f := Sent(round.packet.value, Identifier(round.uid), timestamp);
        assert payload.value == Message(enc.muxer, f, frames == []);
        AllSend(enc.muxer, rounds, before, frames, captures, sent, f);
        frames := frames + [f];
        captures := captures + [i];
        sent := sent + [payload.value];
        i := i + 1;
      }
    }
  }

  lemma OutputIs(w: SliceWriter)
    requires w.Valid()
    ensures w.Output() == w.buf[w.start..w.pos]
  {
  }

  /** The length and timestamp fields. */
  method WriteHead(payload: array<Byte>, size: nat, field: nat)
    requires payload.Length >= 8 && size <= 0xFFFF && field < 0x1_0000_0000
    requires payload[0] == 0xF5 && payload[1] == 0x01
    modifies payload
    ensures payload[..8] == VectorHead(size, field) && payload[8..] == old(payload[8..])
  {
    hide VectorHead, Be32;
    payload[2] := size / 256 % 256;
    payload[3] := size % 256;
    payload[4] := field / 0x100_0000 % 256;
    payload[5] := field / 0x1_0000 % 256;
    payload[6] := field / 0x100 % 256;
    payload[7] := field % 256;
    assert payload[..8][4..] == Big4(field);
    assert size / 256 % 256 == size / 256;
    HeadBytes(payload[..8], size, field);
  }

  /** The rest of the message, then `truncate`: four bytes beyond the container, still zero. */
  method Finish(payload: array<Byte>, written: nat, timestamp: nat, keyframe: bool) returns (v: seq<Byte>)
    requires written + 12 <= payload.Length && written + 4 <= 0xFFFF
    requires payload[0] == 0xF5 && payload[1] == 0x01
    requires forall i | 8 + written <= i < 12 + written :: payload[i] == 0
    modifies payload
    ensures v == AudioVector(old(payload[8..8 + written]), timestamp, keyframe)
  {
    hide AudioVector, VectorHead, StampField;
    ghost var before := payload[..];
    WriteHead(payload, written + 4, StampField(timestamp, keyframe));
    FinishedVector(before, payload[..], written, timestamp, keyframe);
    v := payload[..written + 12];
  }

  lemma FinishedVector(before: seq<Byte>, after: seq<Byte>, written: nat, timestamp: nat, keyframe: bool)
    requires written + 12 <= |before| == |after| && after[8..] == before[8..]
    requires after[..8] == VectorHead(written + 4, StampField(timestamp, keyframe))
    requires forall i | 8 + written <= i < 12 + written :: before[i] == 0
    ensures after[..written + 12] == AudioVector(before[8..8 + written], timestamp, keyframe)
  {
    hide AudioVector, VectorHead, StampField;
    var v, data := after[..written + 12], before[8..8 + written];
    forall i | 8 <= i < |before| ensures after[i] == before[i] {
      assert after[i] == after[8..][i - 8] && before[i] == before[8..][i - 8];
    }
    assert v[..8] == after[..8];
    assert v[8..8 + written] == data;
    assert v[8 + written..] == [0, 0, 0, 0];
    VectorParts(v, data, timestamp, keyframe);
  }
}
