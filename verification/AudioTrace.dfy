/**
 A task in the session is a run of `Stream::run`: what it does in any interleaving is a list of rounds of
 the capture loop, and the frames it sends are the messages that loop sends (src/audio/mod.rs).
 */
module AudioTrace {
  import opened Bytes
  import opened AudioSession
  import opened AudioStop
  import AudioStream
  import Webm

  type Round = AudioStream.Round

  /** What the session leaves open: the times of the captures, the packets, and the track identifier. */
  datatype Data = Data(times: nat -> nat, packets: nat -> seq<Byte>, uid: seq<Byte>) {
    ghost predicate Valid() {
      && (forall k :: times(k) < 0x1_0000_0000_0000_0000)
      && (forall k :: |packets(k)| <= 4000)
      && |uid| == 7
    }
  }

  /** The rounds of a task that are over, and what the present one has come to. */
  datatype Trace = Trace(rounds: seq<Round>, current: Round)

  const BLANK: Round := AudioStream.Round(false, None, AudioStream.Full, None, None)

  /** The round in which the next capture succeeds. */
  function Captured(t: Trace, data: Data): (r: Round) { BLANK.(captured := Some((data.times)(|t.rounds|))) }

  function Follow(t: Trace, s: State, a: Action, i: TaskId, data: Data): (r: Trace)
    requires Enabled(s, a)
  {
    if !OfTask(a, i) then t
    else
      match a
      case Check(_) =>
        if s.tasks[i].stopOpen then Trace(t.rounds, BLANK) else Trace(t.rounds + [BLANK.(stopped := true)], BLANK)
      case Capture(_, ok) =>
        if ok then Trace(t.rounds, Captured(t, data)) else Trace(t.rounds + [t.current], BLANK)
      case Reserve(_, free) =>
        if !s.open then Trace(t.rounds + [t.current.(slot := AudioStream.Closed)], BLANK)
        else if Room(s) && free then t.(current := t.current.(slot := AudioStream.Free))
        else Trace(t.rounds + [t.current.(slot := AudioStream.Full)], BLANK)
      case Encode(_, ok) =>
        var packet := if ok then Some((data.packets)(|t.rounds|)) else None;
        Trace(t.rounds + [t.current.(packet := packet, uid := Some(data.uid))], BLANK)
      case _ => t
  }

  predicate OfTask(a: Action, i: TaskId) {
    match a
    case Check(j) => j == i
    case Capture(j, _) => j == i
    case Reserve(j, _) => j == i
    case Encode(j, _) => j == i
    case _ => false
  }

  ghost function TraceOf(actions: seq<Action>, i: TaskId, data: Data): (t: Trace)
    requires Exec(actions).Some?
    decreases |actions|
  {
    if actions == [] then Trace([], BLANK)
    else
      var n := |actions| - 1;
      Follow(TraceOf(actions[..n], i, data), Exec(actions[..n]).value, actions[n], i, data)
  }

  // Rounds, one by one.

  /** The loop goes on after this round: the frame was dropped or sent. */
  predicate Goes(r: Round) {
    !r.stopped && r.captured.Some? && (r.slot.Full? || (r.slot.Free? && r.packet.Some? && r.uid.Some?))
  }

  /** The loop ends with this round. */
  predicate Stops(r: Round) {
    r.stopped || r.captured.None? || r.slot.Closed? || (r.slot.Free? && r.packet.None?)
  }

  predicate Delivers(r: Round) { Goes(r) && r.slot.Free? }

  function Deliveries(rounds: seq<Round>): (n: nat)
    decreases |rounds|
  {
    if rounds == [] then 0
    else Deliveries(rounds[..|rounds| - 1]) + (if Delivers(rounds[|rounds| - 1]) then 1 else 0)
  }

  lemma DeliveriesSnoc(rounds: seq<Round>, r: Round)
    ensures Deliveries(rounds + [r]) == Deliveries(rounds) + (if Delivers(r) then 1 else 0)
  {
    assert (rounds + [r])[..|rounds|] == rounds;
  }

  ghost predicate AllGo(rounds: seq<Round>) { forall k | 0 <= k < |rounds| :: Goes(rounds[k]) }

  /** Only the last round can end the loop. */
  ghost predicate Shaped(rounds: seq<Round>) {
    AllGo(rounds) || (rounds != [] && AllGo(rounds[..|rounds| - 1]) && Stops(rounds[|rounds| - 1]))
  }

  lemma {:induction false} FreeDeliver(rounds: seq<Round>)
    requires AllGo(rounds)
    ensures AudioStream.FreeRounds(rounds) == Deliveries(rounds)
    decreases |rounds|
  {
    if rounds != [] {
      assert Goes(rounds[|rounds| - 1]);
      FreeDeliver(rounds[..|rounds| - 1]);
    }
  }

  /** On such rounds the capture loop sends exactly the deliveries. */
  lemma RunDelivers(
    m: Webm.Muxer, rounds: seq<Round>, elapsed: seq<nat>, frames: seq<AudioStream.Sent>, captures: seq<nat>,
    sent: seq<seq<Byte>>, served: nat)
    requires Shaped(rounds) && forall k | 0 <= k < |rounds| && rounds[k].slot.Free? :: rounds[k].uid.Some?
    ensures AudioStream.Ran(m, rounds, elapsed, frames, captures, sent, served) ==> |sent| == Deliveries(rounds)
  {
    hide AudioStream.FreeRounds, AudioStream.Message;
    var n := |rounds| - 1;
    if AudioStream.Ran(m, rounds, elapsed, frames, captures, sent, served) {
      if AllGo(rounds) {
        assert served == |rounds| && rounds[..served] == rounds;
        FreeDeliver(rounds);
      } else {
        LastUnserved(m, rounds, elapsed, frames, captures, sent, served);
        FreeDeliver(rounds[..n]);
      }
    }
  }

  lemma LastUnserved(
    m: Webm.Muxer, rounds: seq<Round>, elapsed: seq<nat>, frames: seq<AudioStream.Sent>, captures: seq<nat>,
    sent: seq<seq<Byte>>, served: nat)
    requires rounds != [] && AllGo(rounds[..|rounds| - 1]) && Stops(rounds[|rounds| - 1])
    requires forall k | 0 <= k < |rounds| && rounds[k].slot.Free? :: rounds[k].uid.Some?
    ensures AudioStream.Ran(m, rounds, elapsed, frames, captures, sent, served) ==> served == |rounds| - 1
  {
    hide AudioStream.Recorded, AudioStream.FreeRounds, AudioStream.Message;
    var n := |rounds| - 1;
    assert forall k | 0 <= k < n :: Goes(rounds[k]) by {
      assert forall k | 0 <= k < n :: rounds[k] == rounds[..n][k];
    }
  }

  // The session follows the rounds.

  ghost predicate Follows(s: State, t: Trace, i: TaskId, data: Data) {
    && (forall k | 0 <= k < |t.rounds| :: t.rounds[k].Valid() && (t.rounds[k].slot.Free? ==> t.rounds[k].uid.Some?))
    && Counted(s, t, i)
    && if i < |s.tasks| then AtPc(s.tasks[i].pc, t, data) else t.rounds == []
  }

  /** The frames in the log are the deliveries; one more may be lost on a channel closed under the task. */
  ghost predicate Counted(s: State, t: Trace, i: TaskId) {
    var n := Count(s.log, Frame(i));
    if s.open || (i < |s.tasks| && s.tasks[i].pc.Encoding?) then Deliveries(t.rounds) == n
    else n <= Deliveries(t.rounds) <= n + 1
  }

  ghost predicate AtPc(pc: Pc, t: Trace, data: Data) {
    match pc
    case Checking => AllGo(t.rounds)
    case Reading => AllGo(t.rounds) && t.current == BLANK
    case Reserving => AllGo(t.rounds) && t.current == Captured(t, data)
    case Encoding => AllGo(t.rounds) && t.current == Captured(t, data).(slot := AudioStream.Free)
    case _ => t.rounds != [] && AllGo(t.rounds[..|t.rounds| - 1]) && Stops(t.rounds[|t.rounds| - 1])
  }

  /** Another round joins those that are over. */
  lemma RoundOver(t: Trace, r: Round, pc: Pc, data: Data)
    requires AllGo(t.rounds)
    requires if pc.Checking? then Goes(r) else (pc.Ending? && Stops(r))
    ensures AtPc(pc, Trace(t.rounds + [r], BLANK), data)
    ensures Deliveries(t.rounds + [r]) == Deliveries(t.rounds) + (if Delivers(r) then 1 else 0)
  {
    hide Deliveries;
    DeliveriesSnoc(t.rounds, r);
    assert (t.rounds + [r])[..|t.rounds|] == t.rounds;
  }

  lemma CheckRound(s: State, t: Trace, i: TaskId, data: Data)
    requires Follows(s, t, i, data) && Enabled(s, Check(i)) && data.Valid()
    ensures Follows(Apply(s, Check(i)), Follow(t, s, Check(i), i, data), i, data)
  {
    hide Permits, Deliveries, Count;
    if !s.tasks[i].stopOpen { RoundOver(t, BLANK.(stopped := true), Ending, data); }
  }

  lemma CaptureRound(s: State, t: Trace, i: TaskId, ok: bool, data: Data)
    requires Follows(s, t, i, data) && Enabled(s, Capture(i, ok)) && data.Valid()
    ensures Follows(Apply(s, Capture(i, ok)), Follow(t, s, Capture(i, ok), i, data), i, data)
  {
    hide Permits, Deliveries, Count;
    if !ok { RoundOver(t, t.current, Ending, data); }
  }

  lemma ReserveRound(s: State, t: Trace, i: TaskId, free: bool, data: Data)
    requires Follows(s, t, i, data) && Enabled(s, Reserve(i, free)) && data.Valid()
    ensures Follows(Apply(s, Reserve(i, free)), Follow(t, s, Reserve(i, free), i, data), i, data)
  {
    hide Permits, Room, Deliveries, Count;
    if !s.open {
      RoundOver(t, t.current.(slot := AudioStream.Closed), Ending, data);
    } else if !(Room(s) && free) {
      RoundOver(t, t.current.(slot := AudioStream.Full), Checking, data);
    }
  }

  lemma EncodeRound(s: State, t: Trace, i: TaskId, ok: bool, data: Data)
    requires Follows(s, t, i, data) && Enabled(s, Encode(i, ok)) && data.Valid()
    ensures Follows(Apply(s, Encode(i, ok)), Follow(t, s, Encode(i, ok), i, data), i, data)
  {
    hide Permits, Room, Deliveries, Count;
    var r := Follow(t, s, Encode(i, ok), i, data);
    RoundOver(t, r.rounds[|t.rounds|], if ok then Checking else Ending, data);
    if ok && s.open { CountSnoc(s.log, Frame(i), Frame(i)); }
  }

  lemma OwnRound(s: State, t: Trace, a: Action, i: TaskId, data: Data)
    requires Follows(s, t, i, data) && Enabled(s, a) && OfTask(a, i) && data.Valid()
    ensures Follows(Apply(s, a), Follow(t, s, a, i, data), i, data)
  {
    hide Follows, Follow, Apply, Enabled;
    match a
    case Check(_) => CheckRound(s, t, i, data);
    case Capture(_, ok) => CaptureRound(s, t, i, ok, data);
    case Reserve(_, free) => ReserveRound(s, t, i, free, data);
    case Encode(_, ok) => EncodeRound(s, t, i, ok, data);
  }

  /** A step that leaves the task where it was and sends none of its frames. */
  predicate Aside(s: State, r: State, i: TaskId) {
    && (i < |s.tasks| ==>
          && i < |r.tasks|
          && (r.tasks[i].pc == s.tasks[i].pc || (s.tasks[i].pc.Ending? && r.tasks[i].pc.Finished?)))
    && (i >= |s.tasks| && i < |r.tasks| ==> r.tasks[i].pc.Checking?)
    && (r.open ==> s.open)
  }

  lemma WriterAside(s: State, a: Action, i: TaskId)
    requires EncoderKnown(s) && Enabled(s, a) && ByWriter(a)
    ensures Aside(s, Apply(s, a), i) && Logged(s, a) != Some(Frame(i))
  {
    hide Permits, Room, Armed;
  }

  lemma OthersAside(s: State, a: Action, i: TaskId)
    requires Enabled(s, a) && !ByWriter(a) && !OfTask(a, i)
    ensures Aside(s, Apply(s, a), i) && Logged(s, a) != Some(Frame(i))
  {
    hide Permits, Room, DropStop;
  }

  lemma AsideFollows(s: State, r: State, t: Trace, i: TaskId, data: Data)
    requires Follows(s, t, i, data) && Aside(s, r, i) && Count(r.log, Frame(i)) == Count(s.log, Frame(i))
    ensures Follows(r, t, i, data)
  {
    hide Deliveries, Count;
  }

  lemma OtherRound(s: State, t: Trace, a: Action, i: TaskId, data: Data)
    requires Follows(s, t, i, data) && Enabled(s, a) && !OfTask(a, i) && EncoderKnown(s)
    ensures Follows(Apply(s, a), t, i, data)
  {
    hide Follows, Apply, Enabled, Aside, Count, Logged, EncoderKnown;
    if ByWriter(a) { WriterAside(s, a, i); } else { OthersAside(s, a, i); }
    LogStep(s, a);
    if Logged(s, a).Some? { CountSnoc(s.log, Logged(s, a).value, Frame(i)); }
    AsideFollows(s, Apply(s, a), t, i, data);
  }

  lemma {:induction false} EveryTaskFollows(actions: seq<Action>, i: TaskId, data: Data)
    requires Exec(actions).Some? && data.Valid()
    ensures Follows(Exec(actions).value, TraceOf(actions, i, data), i, data)
    decreases |actions|
  {
    if actions != [] {
      var n := |actions| - 1;
      var s, t := Exec(actions[..n]).value, TraceOf(actions[..n], i, data);
      EveryTaskFollows(actions[..n], i, data);
      InvAlways(actions[..n]);
      hide Follows, Follow, Apply;
      if OfTask(actions[n], i) { OwnRound(s, t, actions[n], i, data); } else { OtherRound(s, t, actions[n], i, data); }
    }
  }

  /** The capture loop can be run on the rounds of every task. */
  lemma RoundsValid(actions: seq<Action>, i: TaskId, data: Data)
    requires Exec(actions).Some? && data.Valid()
    ensures var rounds := TraceOf(actions, i, data).rounds; forall k | 0 <= k < |rounds| :: rounds[k].Valid()
  {
    hide Exec, TraceOf;
    EveryTaskFollows(actions, i, data);
  }

  /**
   In every run of the session, whatever the captures and the packets: the capture loop, on the rounds the
   task has been through, sends as many messages as there are frames of the task in the log, while the channel
   is open; and at most one more, lost, on a channel closed since. So the k-th frame in the log is the k-th
   message of the loop, with its timestamp and the keyframe flag on the first.
   */
  lemma FramesAreSent(
    actions: seq<Action>, i: TaskId, data: Data, m: Webm.Muxer, elapsed: seq<nat>,
    frames: seq<AudioStream.Sent>, captures: seq<nat>, sent: seq<seq<Byte>>, served: nat)
    requires Exec(actions).Some? && data.Valid()
    ensures var s := Exec(actions).value;
            AudioStream.Ran(m, TraceOf(actions, i, data).rounds, elapsed, frames, captures, sent, served) ==>
              && Count(s.log, Frame(i)) <= |sent| <= Count(s.log, Frame(i)) + 1
              && (s.open ==> |sent| == Count(s.log, Frame(i)))
              && forall k | 0 <= k < |sent| ::
                   frames[k].Valid() && sent[k] == AudioStream.Message(m, frames[k], k == 0)
  {
    hide Exec, TraceOf, Count, Deliveries, AudioStream.Selected, AudioStream.Ended, AudioStream.Recorded;
    EveryTaskFollows(actions, i, data);
    RunDelivers(m, TraceOf(actions, i, data).rounds, elapsed, frames, captures, sent, served);
  }
}
