/**
 The audio session as a protocol: the client half, the audio tasks it spawns and the loop that empties
 the channel to the client run concurrently (src/rfb.rs, src/audio/mod.rs, src/main.rs). Every step is
 one point where another part may run in between.
 */
module AudioSession {
  import opened Bytes

  type TaskId = nat

  /** What is sent on the channel to the client, tagged with its task; and the loss of a stop receiver. */
  datatype Event =
    | StartAck
    | StartRefused
    | DisableAck
    | Granted(task: TaskId)
    | Refused
    | Support
    | Frame(task: TaskId)
    | Closing(task: TaskId)
    | StopDropped(task: TaskId)

  /** A control message taken from the client, with the outcome of opening a stream for it. */
  datatype Request = Disable | Start(streamOk: bool) | Updates | Encodings

  /** Where an audio task is in `Stream::run` and the notice that follows it. */
  datatype Pc = Checking | Reading | Reserving | Encoding | Ending | Finished

  /** `stopOpen`: the receiver of its stop channel has not been dropped. */
  datatype Task = Task(pc: Pc, stopOpen: bool)

  /** The client half waits for a message, for room on the channel, or is about to spawn a task. */
  datatype Writer = Idle | Sending(event: Event) | Spawning | Gone

  datatype State = State(
    writer: Writer,
    encoder: bool,
    stopChan: Option<TaskId>,
    tasks: seq<Task>,
    queue: seq<Event>,
    open: bool,
    delivered: seq<Event>,
    log: seq<Event>)

  /** The capacity of the channel to the client. */
  const CAPACITY := 2

  datatype Action =
    | Handle(request: Request)
    | Push
    | Spawn
    | Shutdown
    | Check(task: TaskId)
    | Capture(task: TaskId, ok: bool)
    | Reserve(task: TaskId, free: bool)
    | Encode(task: TaskId, ok: bool)
    | Notify(task: TaskId)
    | Receive
    | CloseReceiver

  /** Slots reserved by tasks that are encoding. */
  function Permits(tasks: seq<Task>): (n: nat)
    decreases |tasks|
  {
    if tasks == [] then 0
    else Permits(tasks[..|tasks| - 1]) + (if tasks[|tasks| - 1].pc.Encoding? then 1 else 0)
  }

  predicate Room(s: State) { |s.queue| + Permits(s.tasks) < CAPACITY }

  predicate Stands(s: State, i: TaskId, pc: Pc) { i < |s.tasks| && s.tasks[i].pc == pc }

  predicate Enabled(s: State, a: Action) {
    match a
    case Handle(_) => s.writer.Idle?
    case Push => s.writer.Sending? && s.open && Room(s)
    case Spawn => s.writer.Spawning?
    // Also after a send fails because the receiver is gone, and when the half itself is dropped.
    case Shutdown => s.writer.Idle? || s.writer.Gone? || (s.writer.Sending? && !s.open)
    case Check(i) => Stands(s, i, Checking)
    case Capture(i, _) => Stands(s, i, Reading)
    case Reserve(i, _) => Stands(s, i, Reserving)
    case Encode(i, _) => Stands(s, i, Encoding)
    case Notify(i) => Stands(s, i, Ending) && (!s.open || Room(s))
    case Receive => s.open && s.queue != []
    case CloseReceiver => s.open
  }

  /** `self.stop_chan.take()`, or its replacement. */
  function DropStop(s: State): (r: State) {
    if s.stopChan.Some? && s.stopChan.value < |s.tasks| then
      var i := s.stopChan.value;
      s.(stopChan := None, tasks := s.tasks[i := s.tasks[i].(stopOpen := false)], log := s.log + [StopDropped(i)])
    else s.(stopChan := None)
  }

  function Enqueue(s: State, e: Event): (r: State) {
    s.(queue := s.queue + [e], log := s.log + [e])
  }

  function Goto(s: State, i: TaskId, pc: Pc): (r: State)
    requires i < |s.tasks|
  {
    s.(tasks := s.tasks[i := s.tasks[i].(pc := pc)])
  }

  function OnRequest(s: State, request: Request): (r: State) {
    match request
    case Disable => DropStop(s).(encoder := false, writer := Sending(DisableAck))
    case Start(ok) =>
      // A stream that fails to open leaves the previous one in place.
      if ok then s.(encoder := true, writer := Sending(StartAck)) else s.(writer := Sending(StartRefused))
    case Updates =>
      if s.encoder then s.(encoder := false, writer := Sending(Granted(|s.tasks|)))
      else s.(writer := Sending(Refused))
    case Encodings => s.(writer := Sending(Support))
  }

  function Apply(s: State, a: Action): (r: State)
    requires Enabled(s, a)
  {
    match a
    case Handle(request) => OnRequest(s, request)
    case Push =>
      var e := s.writer.event;
      Enqueue(s, e).(writer := if e.Granted? then Spawning else Idle)
    case Spawn =>
      var d := DropStop(s);
      d.(stopChan := Some(|s.tasks|), tasks := d.tasks + [Task(Checking, true)], writer := Idle)
    case Shutdown => DropStop(s).(writer := Gone)
    case Check(i) => Goto(s, i, if s.tasks[i].stopOpen then Reading else Ending)
    case Capture(i, ok) => Goto(s, i, if ok then Reserving else Ending)
    // A free slot may already be promised to a send that waits: then the channel is full for the task.
    case Reserve(i, free) => Goto(s, i, if !s.open then Ending else if Room(s) && free then Encoding else Checking)
    case Encode(i, ok) =>
      if !ok then Goto(s, i, Ending)
      else if s.open then Enqueue(Goto(s, i, Checking), Frame(i))
      else Goto(s, i, Checking)
    case Notify(i) => if s.open then Enqueue(Goto(s, i, Finished), Closing(i)) else Goto(s, i, Finished)
    case Receive => s.(queue := s.queue[1..], delivered := s.delivered + [s.queue[0]])
    case CloseReceiver => s.(queue := [], open := false)
  }

  const INITIAL_STATE := State(Idle, false, None, [], [], true, [], [])

  /** The state after a run, if every step of it was possible. */
  ghost function Exec(actions: seq<Action>): (s: Option<State>)
    decreases |actions|
  {
    if actions == [] then Some(INITIAL_STATE)
    else
      var n := |actions| - 1;
      match Exec(actions[..n])
      case None => None
      case Some(s) => if Enabled(s, actions[n]) then Some(Apply(s, actions[n])) else None
  }

  // The part a task plays in the log.

  /** `late` counts the frames since its stop receiver was dropped. */
  datatype Phase = Unborn | Live(stopped: bool, late: nat) | Ended(stopped: bool, late: nat) | Broken

  function Next(p: Phase, e: Event, i: TaskId): (r: Phase) {
    if e == Granted(i) then (if p.Unborn? then Live(false, 0) else Broken)
    else if e == Frame(i) then (if p.Live? then Live(p.stopped, if p.stopped then p.late + 1 else 0) else Broken)
    else if e == Closing(i) then (if p.Live? then Ended(p.stopped, p.late) else Broken)
    else if e == StopDropped(i) then
      (match p
       case Live(false, _) => Live(true, 0)
       case Ended(false, _) => Ended(true, 0)
       case _ => Broken)
    else p
  }

  /** The phase of task `i` after the events of a log. */
  function Track(log: seq<Event>, i: TaskId): (p: Phase)
    decreases |log|
  {
    if log == [] then Unborn else Next(Track(log[..|log| - 1], i), log[|log| - 1], i)
  }

  lemma TrackSnoc(log: seq<Event>, e: Event, i: TaskId)
    ensures Track(log + [e], i) == Next(Track(log, i), e, i)
  {
    assert (log + [e])[..|log|] == log;
  }

  /** Some StartEncoder was acknowledged, and no disable and no StartContinuousUpdates was answered since. */
  ghost predicate Armed(log: seq<Event>) {
    exists j | 0 <= j < |log| ::
      log[j] == StartAck && forall k | j < k < |log| :: log[k] != DisableAck && log[k] != Refused && !log[k].Granted?
  }

  lemma ArmedSnoc(log: seq<Event>, e: Event)
    ensures Armed(log + [e]) <==>
              e == StartAck || (e != DisableAck && e != Refused && !e.Granted? && Armed(log))
  {
    var l := log + [e];
    if e == StartAck {
      assert l[|log|] == StartAck;
    } else if Armed(log) && e != DisableAck && e != Refused && !e.Granted? {
      var j :| 0 <= j < |log| && log[j] == StartAck
        && forall k | j < k < |log| :: log[k] != DisableAck && log[k] != Refused && !log[k].Granted?;
      assert l[j] == StartAck;
    }
    if Armed(l) {
      var j :| 0 <= j < |l| && l[j] == StartAck
        && forall k | j < k < |l| :: l[k] != DisableAck && l[k] != Refused && !l[k].Granted?;
      if j < |log| {
        assert l[|log|] == e && log[j] == StartAck;
        assert forall k | j < k < |log| :: log[k] == l[k];
      }
    }
  }

  // The invariant, one concern at a time.

  /** Queued messages and reserved slots never exceed the capacity. */
  ghost predicate Bounded(s: State) { |s.queue| + Permits(s.tasks) <= CAPACITY }

  /** The only stop channel still open is the one whose receiver the client half keeps. */
  ghost predicate OneStop(s: State) {
    && (s.stopChan.Some? ==> s.stopChan.value < |s.tasks|)
    && forall i | 0 <= i < |s.tasks| :: s.tasks[i].stopOpen <==> s.stopChan == Some(i)
  }

  /** The log tells whether there is an encoder, up to the answer under way. */
  ghost predicate EncoderKnown(s: State) {
    if s.writer.Gone? then true
    else if s.writer.Sending? then
      match s.writer.event
      case StartAck => s.encoder
      case DisableAck => !s.encoder
      case Granted(i) => !s.encoder && Armed(s.log) && i == |s.tasks|
      case Refused => !s.encoder && !Armed(s.log)
      case StartRefused => s.encoder <==> Armed(s.log)
      case Support => s.encoder <==> Armed(s.log)
      case _ => false
    else s.encoder <==> Armed(s.log)
  }

  /** Every answer to StartContinuousUpdates so far was the right one. */
  ghost predicate Answered(log: seq<Event>) {
    forall k | 0 <= k < |log| ::
      (log[k].Granted? ==> Armed(log[..k])) && (log[k] == Refused ==> !Armed(log[..k]))
  }

  ghost predicate TaskPhase(s: State, i: TaskId) {
    var p := Track(s.log, i);
    if i < |s.tasks| then
      var t := s.tasks[i];
      && (p.Live? || p.Ended?) && p.stopped == !t.stopOpen && p.late <= (if t.stopOpen then 0 else 1)
      && (!t.pc.Finished? ==> p.Live?)
      && (t.pc.Finished? && s.open ==> p.Ended?)
      && (t.pc.Reading? || t.pc.Reserving? || t.pc.Encoding? ==> p.late == 0)
    else if i == |s.tasks| && s.writer.Spawning? then p == Live(false, 0)
    else p.Unborn?
  }

  /** What the client has received, then what is queued, is what was sent, in order. */
  ghost predicate InOrder(s: State) {
    if s.open then s.delivered + s.queue == Messages(s.log)
    else s.queue == [] && s.delivered <= Messages(s.log)
  }

  /** The log without its stop events. */
  function Messages(log: seq<Event>): (m: seq<Event>)
    decreases |log|
  {
    if log == [] then []
    else
      var e := log[|log| - 1];
      Messages(log[..|log| - 1]) + (if e.StopDropped? then [] else [e])
  }

  lemma MessagesSnoc(log: seq<Event>, e: Event)
    ensures Messages(log + [e]) == Messages(log) + (if e.StopDropped? then [] else [e])
  {
    assert (log + [e])[..|log|] == log;
  }

  ghost predicate Inv(s: State) {
    && Bounded(s) && OneStop(s) && EncoderKnown(s) && Answered(s.log) && InOrder(s)
    && forall i :: TaskPhase(s, i)
  }

  // Every step keeps it.

  lemma {:induction false} PermitsUpdate(tasks: seq<Task>, i: nat, t: Task)
    requires i < |tasks|
    ensures Permits(tasks[i := t]) ==
            Permits(tasks) - (if tasks[i].pc.Encoding? then 1 else 0) + (if t.pc.Encoding? then 1 else 0)
    decreases |tasks|
  {
    var n := |tasks| - 1;
    if i == n {
      assert tasks[i := t][..n] == tasks[..n];
    } else {
      PermitsUpdate(tasks[..n], i, t);
      assert tasks[i := t][..n] == tasks[..n][i := t];
    }
  }

  lemma PermitsAppend(tasks: seq<Task>, t: Task)
    ensures Permits(tasks + [t]) == Permits(tasks) + (if t.pc.Encoding? then 1 else 0)
  {
    assert (tasks + [t])[..|tasks|] == tasks;
  }

  lemma PermitsDrop(s: State)
    ensures Permits(DropStop(s).tasks) == Permits(s.tasks)
  {
    if s.stopChan.Some? && s.stopChan.value < |s.tasks| {
      PermitsUpdate(s.tasks, s.stopChan.value, s.tasks[s.stopChan.value].(stopOpen := false));
    }
  }

  lemma PermitsGoto(s: State, i: TaskId, pc: Pc)
    requires i < |s.tasks|
    ensures Permits(Goto(s, i, pc).tasks) ==
            Permits(s.tasks) - (if s.tasks[i].pc.Encoding? then 1 else 0) + (if pc.Encoding? then 1 else 0)
  {
    PermitsUpdate(s.tasks, i, s.tasks[i].(pc := pc));
  }

  lemma BoundedStep(s: State, a: Action)
    requires Bounded(s) && Enabled(s, a)
    ensures Bounded(Apply(s, a))
  {
    hide Permits;
    match a
    case Handle(_) => PermitsDrop(s);
    case Push =>
    case Spawn =>
      PermitsDrop(s);
      PermitsAppend(DropStop(s).tasks, Task(Checking, true));
    case Shutdown => PermitsDrop(s);
    case Check(i) => PermitsGoto(s, i, if s.tasks[i].stopOpen then Reading else Ending);
    case Capture(i, ok) => PermitsGoto(s, i, if ok then Reserving else Ending);
    case Reserve(i, free) =>
      PermitsGoto(s, i, if !s.open then Ending else if Room(s) && free then Encoding else Checking);
    case Encode(i, ok) => PermitsGoto(s, i, if ok then Checking else Ending);
    case Notify(i) => PermitsGoto(s, i, Finished);
    case Receive =>
    case CloseReceiver =>
  }

  lemma OneStopDrop(s: State)
    requires OneStop(s)
    ensures OneStop(DropStop(s)) && DropStop(s).stopChan == None && |DropStop(s).tasks| == |s.tasks|
  {
  }

  lemma OneStopStep(s: State, a: Action)
    requires OneStop(s) && Enabled(s, a)
    ensures OneStop(Apply(s, a))
  {
    hide Permits, Room, DropStop, Goto, OneStop;
    if ByWriter(a) {
      OneStopDrop(s);
      OneStopWriter(s, a);
    } else {
      OneStopOther(s, a);
    }
  }

  lemma OneStopWriter(s: State, a: Action)
    requires OneStop(s) && Enabled(s, a) && ByWriter(a)
    requires OneStop(DropStop(s)) && DropStop(s).stopChan == None && |DropStop(s).tasks| == |s.tasks|
    ensures OneStop(Apply(s, a))
  {
    hide Permits, Room, DropStop, Goto;
  }

  lemma OneStopOther(s: State, a: Action)
    requires OneStop(s) && Enabled(s, a) && !ByWriter(a)
    ensures OneStop(Apply(s, a))
  {
    hide Permits, Room, DropStop;
  }

  /** What a step adds to the log. */
  ghost function Logged(s: State, a: Action): (e: Option<Event>)
    requires Enabled(s, a)
  {
    match a
    case Handle(Disable) => Dropped(s)
    case Push => Some(s.writer.event)
    case Spawn => Dropped(s)
    case Shutdown => Dropped(s)
    case Encode(i, true) => if s.open then Some(Frame(i)) else None
    case Notify(i) => if s.open then Some(Closing(i)) else None
    case _ => None
  }

  ghost function Dropped(s: State): (e: Option<Event>) {
    if s.stopChan.Some? && s.stopChan.value < |s.tasks| then Some(StopDropped(s.stopChan.value)) else None
  }

  lemma LogStep(s: State, a: Action)
    requires Enabled(s, a)
    ensures Apply(s, a).log == match Logged(s, a) case None => s.log case Some(e) => s.log + [e]
  {
    hide Permits;
  }

  lemma EncoderStep(s: State, a: Action)
    requires EncoderKnown(s) && Enabled(s, a)
    ensures EncoderKnown(Apply(s, a))
  {
    hide Permits, Armed;
    LogStep(s, a);
    if Logged(s, a).Some? { ArmedSnoc(s.log, Logged(s, a).value); }
  }

  lemma AnsweredStep(s: State, a: Action)
    requires EncoderKnown(s) && Answered(s.log) && Enabled(s, a)
    ensures Answered(Apply(s, a).log)
  {
    hide Permits, Armed, Apply;
    LogStep(s, a);
    if Logged(s, a).Some? {
      var l := s.log + [Logged(s, a).value];
      assert l[..|s.log|] == s.log;
      forall k | 0 <= k < |l|
        ensures (l[k].Granted? ==> Armed(l[..k])) && (l[k] == Refused ==> !Armed(l[..k]))
      {
        if k < |s.log| { assert l[..k] == s.log[..k] && l[k] == s.log[k]; }
      }
    }
  }

  /** What a step sends joins the queue of an open channel. */
  lemma QueueStep(s: State, a: Action)
    requires EncoderKnown(s) && Enabled(s, a) && s.open && !a.Receive? && !a.CloseReceiver?
    ensures var r := Apply(s, a);
            && r.open && r.delivered == s.delivered
            && r.queue == match Logged(s, a) {
                            case Some(e) => if e.StopDropped? then s.queue else s.queue + [e]
                            case None => s.queue
                          }
  {
    hide Permits, Room, Armed;
  }

  lemma ClosedStep(s: State, a: Action)
    requires Enabled(s, a) && !s.open
    ensures var r := Apply(s, a); !r.open && r.delivered == s.delivered && r.queue == s.queue
  {
    hide Permits, Room;
  }

  lemma InOrderStep(s: State, a: Action)
    requires InOrder(s) && EncoderKnown(s) && Enabled(s, a)
    ensures InOrder(Apply(s, a))
  {
    hide Permits, Room, Armed, Messages, Logged, EncoderKnown;
    LogStep(s, a);
    if Logged(s, a).Some? { MessagesSnoc(s.log, Logged(s, a).value); }
    if !s.open {
      ClosedStep(s, a);
      hide Apply;
    } else if a.Receive? {
      ReceiveStep(s);
    } else if a.CloseReceiver? {
      CloseStep(s);
    } else {
      QueueStep(s, a);
      hide Apply, Enabled;
      if Logged(s, a).Some? {
        var e := Logged(s, a).value;
        assert s.delivered + (s.queue + [e]) == s.delivered + s.queue + [e];
      }
    }
  }

  lemma ReceiveStep(s: State)
    requires InOrder(s) && Enabled(s, Receive)
    ensures InOrder(Apply(s, Receive))
  {
    hide Messages;
    assert s.delivered + s.queue == s.delivered + [s.queue[0]] + s.queue[1..];
  }

  lemma CloseStep(s: State)
    requires InOrder(s) && s.open
    ensures InOrder(Apply(s, CloseReceiver))
  {
    hide Messages;
  }

  predicate ByWriter(a: Action) { a.Handle? || a.Push? || a.Spawn? || a.Shutdown? }

  lemma DroppedPhase(s: State, i: TaskId)
    requires OneStop(s) && TaskPhase(s, i)
    ensures TaskPhase(DropStop(s), i)
  {
    hide Permits, Armed, Track;
    if Dropped(s).Some? { TrackSnoc(s.log, Dropped(s).value, i); }
  }

  lemma WriterPhaseStep(s: State, a: Action, i: TaskId)
    requires OneStop(s) && EncoderKnown(s) && TaskPhase(s, i) && Enabled(s, a) && ByWriter(a)
    ensures TaskPhase(Apply(s, a), i)
  {
    hide Permits, Armed, Track;
    if a.Push? {
      PushPhase(s, i);
    } else {
      DroppedPhase(s, i);
      DropPhaseStep(s, a, i);
    }
  }

  lemma PushPhase(s: State, i: TaskId)
    requires EncoderKnown(s) && TaskPhase(s, i) && Enabled(s, Push)
    ensures TaskPhase(Apply(s, Push), i)
  {
    hide Permits, Room, Armed, Track;
    TrackSnoc(s.log, s.writer.event, i);
  }

  /** Only a spawn changes what the tasks are; the rest of the state plays no part in their phases. */
  lemma DropPhaseStep(s: State, a: Action, i: TaskId)
    requires TaskPhase(s, i) && TaskPhase(DropStop(s), i)
    requires Enabled(s, a) && ByWriter(a) && !a.Push?
    ensures TaskPhase(Apply(s, a), i)
  {
    hide Permits, Room, Armed, Track, DropStop, TaskPhase;
    DropKeeps(s);
    var r := Apply(s, a);
    if a.Spawn? {
      SpawnPhase(DropStop(s), r, i);
    } else if a.Shutdown? || a == Handle(Disable) {
      SamePhase(DropStop(s), r, i);
    } else {
      SamePhase(s, r, i);
    }
  }

  lemma DropKeeps(s: State)
    ensures var d := DropStop(s); d.writer == s.writer && |d.tasks| == |s.tasks| && d.open == s.open
  {
  }

  lemma SamePhase(s: State, r: State, i: TaskId)
    requires TaskPhase(s, i) && r.tasks == s.tasks && r.log == s.log && r.open == s.open
    requires !s.writer.Spawning? && !r.writer.Spawning?
    ensures TaskPhase(r, i)
  {
    hide Track;
  }

  lemma SpawnPhase(s: State, r: State, i: TaskId)
    requires TaskPhase(s, i) && r.tasks == s.tasks + [Task(Checking, true)] && r.log == s.log && r.open == s.open
    requires s.writer.Spawning? && !r.writer.Spawning?
    ensures TaskPhase(r, i)
  {
    hide Track;
  }

  lemma OwnPhaseStep(s: State, a: Action, i: TaskId)
    requires OneStop(s) && TaskPhase(s, i) && Enabled(s, a) && !ByWriter(a)
    ensures TaskPhase(Apply(s, a), i)
  {
    hide Permits, Armed, Track, OneStop;
    if a.Encode? {
      TrackSnoc(s.log, Frame(a.task), i);
    } else if a.Notify? {
      TrackSnoc(s.log, Closing(a.task), i);
    }
  }

  lemma TaskPhaseStep(s: State, a: Action, i: TaskId)
    requires OneStop(s) && EncoderKnown(s) && TaskPhase(s, i) && Enabled(s, a)
    ensures TaskPhase(Apply(s, a), i)
  {
    hide Apply, Enabled, OneStop, EncoderKnown, TaskPhase;
    if ByWriter(a) { WriterPhaseStep(s, a, i); } else { OwnPhaseStep(s, a, i); }
  }

  lemma InvStep(s: State, a: Action)
    requires Inv(s) && Enabled(s, a)
    ensures Inv(Apply(s, a))
  {
    hide Permits, Armed, Track, Messages, Apply, Bounded, OneStop, EncoderKnown, Answered, InOrder, TaskPhase;
    BoundedStep(s, a);
    OneStopStep(s, a);
    EncoderStep(s, a);
    AnsweredStep(s, a);
    InOrderStep(s, a);
    forall i ensures TaskPhase(Apply(s, a), i) { TaskPhaseStep(s, a, i); }
  }

  lemma {:induction false} InvAlways(actions: seq<Action>)
    requires Exec(actions).Some?
    ensures Inv(Exec(actions).value)
    decreases |actions|
  {
    if actions == [] {
      assert !Armed([]);
    } else {
      var n := |actions| - 1;
      InvAlways(actions[..n]);
      InvStep(Exec(actions[..n]).value, actions[n]);
    }
  }

  // What holds over every run.

  /** At most one stop channel is open, and it is the one the client half holds. */
  lemma AtMostOneOpenStop(actions: seq<Action>, i: TaskId)
    requires Exec(actions).Some?
    ensures var s := Exec(actions).value;
            i < |s.tasks| ==> (s.tasks[i].stopOpen <==> s.stopChan == Some(i))
  {
    InvAlways(actions);
  }

  /** After a shutdown, and for as long as the half is gone, every task has been told to stop. */
  lemma {:induction false} ShutdownStopsAll(actions: seq<Action>, i: TaskId)
    requires Exec(actions).Some? && Exec(actions).value.writer.Gone?
    ensures var s := Exec(actions).value; s.stopChan == None && (i < |s.tasks| ==> !s.tasks[i].stopOpen)
    decreases |actions|
  {
    InvAlways(actions);
    NoStopWhenGone(actions);
  }

  lemma {:induction false} NoStopWhenGone(actions: seq<Action>)
    requires Exec(actions).Some? && Exec(actions).value.writer.Gone?
    ensures Exec(actions).value.stopChan == None
    decreases |actions|
  {
    hide Permits, Room;
    var n := |actions| - 1;
    if Exec(actions[..n]).value.writer.Gone? { NoStopWhenGone(actions[..n]); }
  }

  /** StartContinuousUpdates is granted exactly when the log shows an encoder that is still unused. */
  lemma EveryAnswerRight(actions: seq<Action>, k: nat)
    requires Exec(actions).Some? && k < |Exec(actions).value.log|
    ensures var log := Exec(actions).value.log;
            (log[k].Granted? ==> Armed(log[..k])) && (log[k] == Refused ==> !Armed(log[..k]))
  {
    InvAlways(actions);
  }

  /** The client receives what was sent, in the order it was sent. */
  lemma ReceivedInOrder(actions: seq<Action>)
    requires Exec(actions).Some?
    ensures var s := Exec(actions).value;
            s.delivered <= Messages(s.log) && |s.queue| <= 2
  {
    InvAlways(actions);
  }

  function Count(log: seq<Event>, e: Event): (n: nat)
    decreases |log|
  {
    if log == [] then 0 else Count(log[..|log| - 1], e) + (if log[|log| - 1] == e then 1 else 0)
  }

  /** Event `e` is about task `i`. */
  predicate Of(e: Event, i: TaskId) { e == Granted(i) || e == Frame(i) || e == Closing(i) || e == StopDropped(i) }

  /** The grant comes first and once, frames and one closing notice follow, and no frame after that. */
  ghost predicate Ordered(log: seq<Event>, i: TaskId) {
    && (forall p, q | 0 <= p < q < |log| && Of(log[p], i) :: log[q] != Granted(i))
    && (forall q | 0 <= q < |log| && Of(log[q], i) && !log[q].Granted? :: Granted(i) in log[..q])
    && (forall p, q | 0 <= p < q < |log| && log[p] == Closing(i) :: log[q] != Frame(i) && log[q] != Closing(i))
    && (forall p, q | 0 <= p < q < |log| && log[p] == StopDropped(i) :: log[q] != StopDropped(i))
  }

  /** Once its stop receiver is gone, a task sends at most one frame. */
  ghost predicate OneLateFrame(log: seq<Event>, i: TaskId) {
    forall p | 0 <= p < |log| && log[p] == StopDropped(i) :: Count(log[p..], Frame(i)) <= 1
  }

  lemma {:induction false} Prefixes(log: seq<Event>, k: nat, i: TaskId)
    requires k <= |log| && Track(log, i) != Broken
    ensures var p, q := Track(log[..k], i), Track(log, i);
            && p != Broken
            && (q.Unborn? ==> p.Unborn?) && (p.Ended? ==> q.Ended?)
            && (!p.Unborn? && p.stopped ==> !q.Unborn? && q.stopped)
    decreases |log|
  {
    if k < |log| {
      var n := |log| - 1;
      Prefixes(log[..n], k, i);
      assert log[..n][..k] == log[..k];
    } else {
      assert log[..k] == log;
    }
  }

  lemma {:induction false} BornGranted(log: seq<Event>, i: TaskId)
    requires Track(log, i) != Broken && Track(log, i) != Unborn
    ensures Granted(i) in log
    decreases |log|
  {
    var n := |log| - 1;
    assert log == log[..n] + [log[n]];
    if Track(log[..n], i) != Unborn { BornGranted(log[..n], i); }
  }

  /** The phase just before and just after the event at `k`. */
  lemma PhaseAround(log: seq<Event>, k: nat, i: TaskId)
    requires k < |log| && Track(log, i) != Broken
    ensures Track(log[..k + 1], i) == Next(Track(log[..k], i), log[k], i) != Broken
  {
    hide Track;
    Prefixes(log, k + 1, i);
    TrackSnoc(log[..k], log[k], i);
    assert log[..k + 1] == log[..k] + [log[k]];
  }

  lemma OrderedPair(log: seq<Event>, p: nat, q: nat, i: TaskId)
    requires p < q < |log| && Track(log, i) != Broken && Of(log[p], i)
    ensures log[q] != Granted(i)
    ensures log[p] == Closing(i) ==> log[q] != Frame(i) && log[q] != Closing(i)
    ensures log[p] == StopDropped(i) ==> log[q] != StopDropped(i)
  {
    hide Track;
    PhaseAround(log, p, i);
    PhaseAround(log, q, i);
    Prefixes(log, q, i);
    Prefixes(log[..q], p + 1, i);
    assert log[..q][..p + 1] == log[..p + 1];
  }

  lemma TrackedOrdered(log: seq<Event>, i: TaskId)
    requires Track(log, i) != Broken
    ensures Ordered(log, i)
  {
    hide Track;
    forall p, q | 0 <= p < q < |log| && Of(log[p], i)
      ensures log[q] != Granted(i)
      ensures log[p] == Closing(i) ==> log[q] != Frame(i) && log[q] != Closing(i)
      ensures log[p] == StopDropped(i) ==> log[q] != StopDropped(i)
    {
      OrderedPair(log, p, q, i);
    }
    forall q | 0 <= q < |log| && Of(log[q], i) && !log[q].Granted? ensures Granted(i) in log[..q] {
      PhaseAround(log, q, i);
      BornGranted(log[..q], i);
    }
  }

  lemma {:induction false} LateCounted(log: seq<Event>, p: nat, i: TaskId)
    requires p < |log| && log[p] == StopDropped(i) && Track(log, i) != Broken
    ensures !Track(log, i).Unborn? && Track(log, i).stopped && Count(log[p..], Frame(i)) == Track(log, i).late
    decreases |log|
  {
    var n := |log| - 1;
    assert log[p..][..|log[p..]| - 1] == log[p..n];
    PhaseAround(log, p, i);
    if p < n {
      assert log[..n][p..] == log[p..n];
      LateCounted(log[..n], p, i);
    } else {
      assert log[..n + 1] == log && log[p..n] == [];
    }
  }

  /** The part of every task in every run; a finished task has sent its closing notice. */
  lemma TaskHistory(actions: seq<Action>, i: TaskId)
    requires Exec(actions).Some?
    ensures var s := Exec(actions).value;
            && Ordered(s.log, i) && OneLateFrame(s.log, i)
            && (i < |s.tasks| && s.tasks[i].pc.Finished? && s.open ==> Closing(i) in s.log)
            && (i < |s.tasks| && !s.tasks[i].stopOpen ==> StopDropped(i) in s.log)
  {
    hide Track, Bounded, OneStop, EncoderKnown, Answered, InOrder, Exec, Count;
    InvAlways(actions);
    var s := Exec(actions).value;
    assert TaskPhase(s, i);
    TrackedOrdered(s.log, i);
    forall p | 0 <= p < |s.log| && s.log[p] == StopDropped(i) ensures Count(s.log[p..], Frame(i)) <= 1 {
      LateCounted(s.log, p, i);
    }
    EndedClosed(s.log, i);
  }

  lemma {:induction false} EndedClosed(log: seq<Event>, i: TaskId)
    requires Track(log, i) != Broken
    ensures Track(log, i).Ended? ==> Closing(i) in log
    ensures !Track(log, i).Unborn? && Track(log, i).stopped ==> StopDropped(i) in log
    decreases |log|
  {
    if log != [] {
      var n := |log| - 1;
      EndedClosed(log[..n], i);
      var p, e := Track(log[..n], i), log[n];
      TrackSnoc(log[..n], e, i);
      assert log == log[..n] + [e];
      hide Track;
      assert Next(p, e, i).Ended? ==> p.Ended? || e == Closing(i);
      assert !Next(p, e, i).Unborn? && Next(p, e, i).stopped ==> (!p.Unborn? && p.stopped) || e == StopDropped(i);
    }
  }

  lemma ExecSnoc(actions: seq<Action>, s: State, a: Action) returns (more: seq<Action>, r: State)
    requires Exec(actions) == Some(s) && Enabled(s, a)
    ensures r == Apply(s, a) && Exec(more) == Some(r)
  {
    hide Enabled, Apply;
    more, r := actions + [a], Apply(s, a);
    assert more[..|actions|] == actions;
  }

  lemma OneTaskGranted() returns (actions: seq<Action>)
    ensures Exec(actions) == Some(State(Spawning, false, None, [], [Granted(0)], true,
                                        [StartAck], [StartAck, Granted(0)]))
  {
    hide Exec;
    var s := INITIAL_STATE;
    assert Exec([]) == Some(INITIAL_STATE) by { ExecNothing(); }
    actions, s := ExecSnoc([], s, Handle(Start(true)));
    actions, s := ExecSnoc(actions, s, Push);
    assert s == State(Idle, true, None, [], [StartAck], true, [], [StartAck]);
    actions, s := ExecSnoc(actions, s, Receive);
    assert s == State(Idle, true, None, [], [], true, [StartAck], [StartAck]);
    actions, s := ExecSnoc(actions, s, Handle(Updates));
    assert s == State(Sending(Granted(0)), false, None, [], [], true, [StartAck], [StartAck]);
    actions, s := ExecSnoc(actions, s, Push);
    assert s.queue == [Granted(0)] && s.log == [StartAck, Granted(0)];
  }

  lemma OneTaskCaptured() returns (actions: seq<Action>)
    ensures Exec(actions) == Some(State(Idle, false, Some(0), [Task(Reserving, true)], [], true,
                                        [StartAck, Granted(0)], [StartAck, Granted(0)]))
  {
    hide Exec, Permits;
    actions := OneTaskGranted();
    var s := Exec(actions).value;
    actions, s := ExecSnoc(actions, s, Spawn);
    assert s.tasks == [Task(Checking, true)];
    actions, s := ExecSnoc(actions, s, Receive);
    assert s.queue == [] && s.delivered == [StartAck, Granted(0)];
    actions, s := ExecSnoc(actions, s, Check(0));
    actions, s := ExecSnoc(actions, s, Capture(0, true));
    assert s.tasks == [Task(Reserving, true)];
  }

  /**
   The bound is reached: a frame can follow the acknowledgement of the disable, although README.md:170-175
   promises that none does.
   */
  lemma FrameAfterAcknowledgement() returns (actions: seq<Action>)
    ensures Exec(actions).Some?
    ensures Exec(actions).value.log == [StartAck, Granted(0), StopDropped(0), DisableAck, Frame(0)]
  {
    hide Exec;
    actions := OneTaskCaptured();
    var s := Exec(actions).value;
    actions, s := ExecSnoc(actions, s, Handle(Disable));
    assert s.tasks == [Task(Reserving, false)] && s.log == [StartAck, Granted(0), StopDropped(0)];
    actions, s := ExecSnoc(actions, s, Push);
    assert s.log == [StartAck, Granted(0), StopDropped(0), DisableAck] && s.queue == [DisableAck];
    actions, s := ExecSnoc(actions, s, Reserve(0, true));
    assert s.tasks == [Task(Encoding, false)];
    actions, s := ExecSnoc(actions, s, Encode(0, true));
  }

  lemma ExecNothing()
    ensures Exec([]) == Some(INITIAL_STATE)
  {
  }
}
