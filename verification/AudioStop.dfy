/**
 When the promise of README.md:170-175 is kept: whether a task whose stop receiver has been dropped can
 still send a frame (src/audio/mod.rs, `Stream::run`).
 */
module AudioStop {
  import opened Bytes
  import opened AudioSession

  /** Past the check at the head of the loop, and not yet back at it. */
  predicate Underway(pc: Pc) { pc.Reading? || pc.Reserving? || pc.Encoding? }

  /** Task `i` has been told to stop. */
  predicate ToldToStop(s: State, i: TaskId) { i < |s.tasks| && !s.tasks[i].stopOpen }

  /** A frame of task `i` can still be sent. */
  predicate CanStillSend(s: State, i: TaskId) { s.open && i < |s.tasks| && Underway(s.tasks[i].pc) }

  // A stopped task that is not under way is silent for good.

  lemma WriterSilent(s: State, a: Action, i: TaskId)
    requires EncoderKnown(s) && Enabled(s, a) && ByWriter(a) && ToldToStop(s, i) && !CanStillSend(s, i)
    ensures ToldToStop(Apply(s, a), i) && !CanStillSend(Apply(s, a), i)
    ensures Logged(s, a) != Some(Frame(i))
  {
    hide Permits, Room, Armed;
  }

  lemma OthersSilent(s: State, a: Action, i: TaskId)
    requires Enabled(s, a) && !ByWriter(a) && ToldToStop(s, i) && !CanStillSend(s, i)
    ensures ToldToStop(Apply(s, a), i) && !CanStillSend(Apply(s, a), i)
    ensures Logged(s, a) != Some(Frame(i))
  {
    hide Permits, Room, DropStop;
  }

  lemma SilentStep(s: State, a: Action, i: TaskId)
    requires EncoderKnown(s) && Enabled(s, a) && ToldToStop(s, i) && !CanStillSend(s, i)
    ensures ToldToStop(Apply(s, a), i) && !CanStillSend(Apply(s, a), i)
    ensures Logged(s, a) != Some(Frame(i))
  {
    hide Apply, Enabled, ToldToStop, CanStillSend, Logged, EncoderKnown;
    if ByWriter(a) { WriterSilent(s, a, i); } else { OthersSilent(s, a, i); }
  }

  lemma CountSnoc(log: seq<Event>, e: Event, f: Event)
    ensures Count(log + [e], f) == Count(log, f) + (if e == f then 1 else 0)
  {
    assert (log + [e])[..|log|] == log;
  }

  /** The last step of a longer run. */
  lemma ExecLast(actions: seq<Action>, more: seq<Action>)
    requires more != [] && Exec(actions + more).Some?
    ensures var init, a := more[..|more| - 1], more[|more| - 1];
            && Exec(actions + init).Some? && Enabled(Exec(actions + init).value, a)
            && Exec(actions + more).value == Apply(Exec(actions + init).value, a)
  {
    hide Apply, Enabled;
    var n := |more| - 1;
    var all := actions + more;
    assert all[..|all| - 1] == actions + more[..n] && all[|all| - 1] == more[n];
  }

  lemma {:induction false} SilentForever(actions: seq<Action>, more: seq<Action>, i: TaskId)
    requires Exec(actions).Some? && Exec(actions + more).Some?
    requires ToldToStop(Exec(actions).value, i) && !CanStillSend(Exec(actions).value, i)
    ensures var s, t := Exec(actions).value, Exec(actions + more).value;
            && Count(t.log, Frame(i)) == Count(s.log, Frame(i))
            && ToldToStop(t, i) && !CanStillSend(t, i)
    decreases |more|
  {
    hide Exec, Apply, Enabled, Count, CanStillSend, ToldToStop, Logged, EncoderKnown;
    if more == [] {
      assert actions + more == actions;
    } else {
      ExecLast(actions, more);
      var init, a := more[..|more| - 1], more[|more| - 1];
      SilentForever(actions, init, i);
      var before := Exec(actions + init).value;
      assert EncoderKnown(before) by { InvAlways(actions + init); }
      SilentStep(before, a, i);
      LogStep(before, a);
      if Logged(before, a).Some? { CountSnoc(before.log, Logged(before, a).value, Frame(i)); }
    }
  }

  // A task under way can send: the receiver empties the queue, an encoder in the way fails, the task goes on.

  /** From `s`, the steps `more` lead to `t`. */
  ghost predicate Leads(actions: seq<Action>, more: seq<Action>, t: State) { Exec(actions + more) == Some(t) }

  lemma LeadsNext(actions: seq<Action>, more: seq<Action>, s: State, a: Action)
    requires Leads(actions, more, s) && Enabled(s, a)
    ensures Leads(actions, more + [a], Apply(s, a))
  {
    hide Enabled, Apply;
    assert (actions + (more + [a]))[..|actions + more|] == actions + more;
  }

  /** The receiver takes everything that is queued. */
  lemma {:induction false} Drained(actions: seq<Action>, before: seq<Action>, s: State)
    returns (more: seq<Action>, t: State)
    requires Leads(actions, before, s) && s.open
    ensures Leads(actions, more, t) && t.queue == []
    ensures t.open && t.tasks == s.tasks && t.log == s.log
    decreases |s.queue|
  {
    hide Leads, Permits;
    if s.queue == [] {
      return before, s;
    }
    LeadsNext(actions, before, s, Receive);
    more, t := Drained(actions, before + [Receive], Apply(s, Receive));
  }

  lemma {:induction false} SomeEncoding(tasks: seq<Task>) returns (j: TaskId)
    requires Permits(tasks) > 0
    ensures j < |tasks| && tasks[j].pc.Encoding?
    decreases |tasks|
  {
    var n := |tasks| - 1;
    if tasks[n].pc.Encoding? { return n; }
    j := SomeEncoding(tasks[..n]);
  }

  /** There is room on the channel, and task `i` is where it was. */
  lemma RoomMade(actions: seq<Action>, before: seq<Action>, s: State, i: TaskId) returns (more: seq<Action>, t: State)
    requires Leads(actions, before, s) && s.open && i < |s.tasks| && !s.tasks[i].pc.Encoding? && Bounded(s)
    ensures Leads(actions, more, t) && Room(t) && t.open && t.log == s.log
    ensures i < |t.tasks| && t.tasks[i].pc == s.tasks[i].pc
  {
    hide Leads, Permits;
    more, t := Drained(actions, before, s);
    if !Room(t) {
      var j := SomeEncoding(t.tasks);
      LeadsNext(actions, more, t, Encode(j, false));
      PermitsGoto(t, j, Ending);
      more, t := more + [Encode(j, false)], Apply(t, Encode(j, false));
    }
  }

  /** From here the task goes on to send a frame, and nothing else is sent before it. */
  lemma FrameFollows(actions: seq<Action>, i: TaskId) returns (more: seq<Action>)
    requires Exec(actions).Some? && CanStillSend(Exec(actions).value, i)
    ensures Exec(actions + more).Some?
    ensures Exec(actions + more).value.log == Exec(actions).value.log + [Frame(i)]
  {
    var s := Exec(actions).value;
    var start := s.log;
    more := [];
    assert Leads(actions, more, s) by { assert actions + [] == actions; }
    InvAlways(actions);
    hide Permits, Inv, Exec;
    if !s.tasks[i].pc.Encoding? {
      assert Bounded(s) by { InvBounded(s); }
      more, s := RoomMade(actions, more, s, i);
      if s.tasks[i].pc.Reading? {
        LeadsNext(actions, more, s, Capture(i, true));
        PermitsGoto(s, i, Reserving);
        more, s := more + [Capture(i, true)], Apply(s, Capture(i, true));
      }
      LeadsNext(actions, more, s, Reserve(i, true));
      more, s := more + [Reserve(i, true)], Apply(s, Reserve(i, true));
    }
    assert s.open && s.tasks[i].pc.Encoding? && s.log == start;
    LeadsNext(actions, more, s, Encode(i, true));
    more := more + [Encode(i, true)];
  }

  /** An unfinished task comes to its closing notice without sending anything before it. */
  lemma ReachesEnding(actions: seq<Action>, before: seq<Action>, s: State, i: TaskId)
    returns (more: seq<Action>, t: State)
    requires Leads(actions, before, s) && s.open && i < |s.tasks| && !s.tasks[i].pc.Finished? && Bounded(s)
    ensures Leads(actions, more, t) && t.open && t.log == s.log && Bounded(t)
    ensures i < |t.tasks| && t.tasks[i].pc.Ending?
  {
    hide Leads, Permits, Room;
    more, t := before, s;
    if t.tasks[i].pc.Reserving? {
      LeadsNext(actions, more, t, Reserve(i, false));
      BoundedStep(t, Reserve(i, false));
      more, t := more + [Reserve(i, false)], Apply(t, Reserve(i, false));
    }
    if t.tasks[i].pc.Checking? {
      LeadsNext(actions, more, t, Check(i));
      BoundedStep(t, Check(i));
      more, t := more + [Check(i)], Apply(t, Check(i));
    }
    if t.tasks[i].pc.Reading? {
      LeadsNext(actions, more, t, Capture(i, false));
      BoundedStep(t, Capture(i, false));
      more, t := more + [Capture(i, false)], Apply(t, Capture(i, false));
    } else if t.tasks[i].pc.Encoding? {
      LeadsNext(actions, more, t, Encode(i, false));
      BoundedStep(t, Encode(i, false));
      more, t := more + [Encode(i, false)], Apply(t, Encode(i, false));
    }
  }

  /** On an open channel every unfinished task has a continuation in which its closing notice comes next. */
  lemma NoticeFollows(actions: seq<Action>, i: TaskId) returns (more: seq<Action>)
    requires Exec(actions).Some?
    requires var s := Exec(actions).value; s.open && i < |s.tasks| && !s.tasks[i].pc.Finished?
    ensures Exec(actions + more).Some?
    ensures Exec(actions + more).value.log == Exec(actions).value.log + [Closing(i)]
  {
    var s := Exec(actions).value;
    more := [];
    assert Leads(actions, more, s) by { assert actions + [] == actions; }
    InvAlways(actions);
    assert Bounded(s) by { InvBounded(s); }
    hide Permits, Inv, Exec;
    more, s := ReachesEnding(actions, more, s, i);
    more, s := RoomMade(actions, more, s, i);
    LeadsNext(actions, more, s, Notify(i));
    more := more + [Notify(i)];
  }

  lemma InvBounded(s: State)
    requires Inv(s)
    ensures Bounded(s)
  {
  }

  /** Some continuation of the run sends another frame of task `i`. */
  ghost predicate FrameToCome(actions: seq<Action>, i: TaskId)
    requires Exec(actions).Some?
  {
    exists more: seq<Action> :: Sends(actions, more, i)
  }

  ghost predicate Sends(actions: seq<Action>, more: seq<Action>, i: TaskId)
    requires Exec(actions).Some?
  {
    && Exec(actions + more).Some?
    && Count(Exec(actions + more).value.log, Frame(i)) > Count(Exec(actions).value.log, Frame(i))
  }

  /**
   In every reachable state, a task that has been told to stop can still send a frame if and only if the
   channel is open and the task has passed its check and not come back to it.
   */
  lemma StoppedTaskSilent(actions: seq<Action>, i: TaskId)
    requires Exec(actions).Some? && ToldToStop(Exec(actions).value, i)
    ensures FrameToCome(actions, i) <==> CanStillSend(Exec(actions).value, i)
  {
    hide Exec, Count;
    var s := Exec(actions).value;
    if CanStillSend(s, i) {
      var more := FrameFollows(actions, i);
      CountSnoc(s.log, Frame(i), Frame(i));
      assert Sends(actions, more, i);
    } else {
      forall more: seq<Action> ensures !Sends(actions, more, i) {
        if Exec(actions + more).Some? { SilentForever(actions, more, i); }
      }
    }
  }

  /** The acknowledgement of a disable is what the client half is about to send. */
  predicate Acknowledging(s: State) { s.writer == Sending(DisableAck) }

  lemma {:induction false} NoStopWhileAcknowledging(actions: seq<Action>)
    requires Exec(actions).Some? && Acknowledging(Exec(actions).value)
    ensures Exec(actions).value.stopChan == None
    decreases |actions|
  {
    hide Permits, Room, Apply, Enabled, Acknowledging;
    var n := |actions| - 1;
    if n < 0 {
      NotAcknowledgingYet();
    } else {
      var s := Exec(actions[..n]).value;
      if Acknowledging(s) { NoStopWhileAcknowledging(actions[..n]); }
      AcknowledgingStep(s, actions[n]);
    }
  }

  lemma NotAcknowledgingYet()
    ensures !Acknowledging(INITIAL_STATE)
  {
  }

  lemma AcknowledgingStep(s: State, a: Action)
    requires Enabled(s, a) && Acknowledging(Apply(s, a)) && (Acknowledging(s) ==> s.stopChan == None)
    ensures Apply(s, a).stopChan == None
  {
    hide Permits, Room, DropStop;
    StopGone(s);
  }

  lemma StopGone(s: State)
    ensures DropStop(s).stopChan == None
  {
  }

  /** No task granted so far has a frame to come: later tasks answer later requests. */
  ghost predicate PromiseKept(actions: seq<Action>)
    requires Exec(actions).Some?
  {
    forall i | 0 <= i < |Exec(actions).value.tasks| :: !FrameToCome(actions, i)
  }

  /**
   The promise, exactly: once the acknowledgement of a disable is on the channel, no frame of the tasks so
   far follows in any continuation if and only if no task is under way at that moment.
   */
  lemma AcknowledgementKept(actions: seq<Action>)
    requires Exec(actions).Some? && Acknowledging(Exec(actions).value) && Enabled(Exec(actions).value, Push)
    ensures var acked := actions + [Push];
            && Exec(acked).Some?
            && Exec(acked).value.log == Exec(actions).value.log + [DisableAck]
            && (PromiseKept(acked) <==>
                forall i | 0 <= i < |Exec(actions).value.tasks| :: !Underway(Exec(actions).value.tasks[i].pc))
  {
    var s, acked := Exec(actions).value, actions + [Push];
    assert acked[..|actions|] == actions;
    var t := Exec(acked).value;
    assert t == Apply(s, Push) && t.open && t.tasks == s.tasks;
    NoStopWhileAcknowledging(actions);
    hide Exec;
    forall i | 0 <= i < |t.tasks| ensures FrameToCome(acked, i) <==> Underway(t.tasks[i].pc) {
      AtMostOneOpenStop(actions, i);
      StoppedTaskSilent(acked, i);
    }
  }
}
