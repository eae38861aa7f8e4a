/**
 The client half behaves, in every interleaving with the audio tasks and the receiver, as if it handled
 its messages one after the other (src/rfb.rs, `write_all`).
 */
module AudioWire {
  import opened Bytes
  import opened AudioSession
  import ClientHalf
  import ClientParser

  /** What the client half has come to after a list of requests, and the answers it has given. */
  datatype Served = Served(encoder: bool, stop: Option<TaskId>, spawned: nat, answers: seq<Event>)

  const NOTHING_SERVED := Served(false, None, 0, [])

  function Serve(q: Served, request: Request): (r: Served) {
    match request
    case Disable => q.(encoder := false, stop := None, answers := q.answers + [DisableAck])
    case Start(ok) =>
      if ok then q.(encoder := true, answers := q.answers + [StartAck])
      else q.(answers := q.answers + [StartRefused])
    case Updates =>
      if q.encoder then
        Served(false, Some(q.spawned), q.spawned + 1, q.answers + [Granted(q.spawned)])
      else q.(answers := q.answers + [Refused])
    case Encodings => q.(answers := q.answers + [Support])
  }

  function ServeAll(q: Served, requests: seq<Request>): (r: Served)
    decreases |requests|
  {
    if requests == [] then q
    else Serve(ServeAll(q, requests[..|requests| - 1]), requests[|requests| - 1])
  }

  lemma ServeAllSnoc(q: Served, requests: seq<Request>, request: Request)
    ensures ServeAll(q, requests + [request]) == Serve(ServeAll(q, requests), request)
  {
    assert (requests + [request])[..|requests|] == requests;
  }

  lemma {:induction false} ServeAllAppend(q: Served, a: seq<Request>, b: seq<Request>)
    ensures ServeAll(q, a + b) == ServeAll(ServeAll(q, a), b)
    decreases |b|
  {
    if b == [] {
      assert a + b == a;
    } else {
      var n := |b| - 1;
      ServeAllAppend(q, a, b[..n]);
      ServeAllSnoc(q, a + b[..n], b[n]);
      assert a + b == a + b[..n] + [b[n]];
    }
  }

  // Every interleaving.

  predicate IsAnswer(e: Event) { !e.Frame? && !e.Closing? && !e.StopDropped? }

  /** What the client half has sent. */
  function Answers(log: seq<Event>): (r: seq<Event>)
    decreases |log|
  {
    if log == [] then []
    else
      var e := log[|log| - 1];
      Answers(log[..|log| - 1]) + (if IsAnswer(e) then [e] else [])
  }

  lemma AnswersSnoc(log: seq<Event>, e: Event)
    ensures Answers(log + [e]) == Answers(log) + (if IsAnswer(e) then [e] else [])
  {
    assert (log + [e])[..|log|] == log;
  }

  /** The requests handled in a run. */
  function Requests(actions: seq<Action>): (r: seq<Request>)
    decreases |actions|
  {
    if actions == [] then []
    else
      var a := actions[|actions| - 1];
      Requests(actions[..|actions| - 1]) + (if a.Handle? then [a.request] else [])
  }

  /** The session is where serving the requests leads, up to the request under way. */
  ghost predicate Refines(s: State, q: Served) {
    var sent := Answers(s.log);
    match s.writer
    case Idle => q == Served(s.encoder, s.stopChan, |s.tasks|, sent)
    case Sending(e) =>
      && IsAnswer(e) && q.answers == sent + [e] && q.encoder == s.encoder
      && (if e.Granted? then e.task == |s.tasks| && q.stop == Some(|s.tasks|) && q.spawned == |s.tasks| + 1
          else q.stop == s.stopChan && q.spawned == |s.tasks|)
    case Spawning => q == Served(s.encoder, Some(|s.tasks|), |s.tasks| + 1, sent)
    case Gone => sent <= q.answers
  }

  lemma OwnStep(s: State, q: Served, a: Action)
    requires Refines(s, q) && Enabled(s, a) && ByWriter(a)
    ensures Refines(Apply(s, a), if a.Handle? then Serve(q, a.request) else q)
  {
    hide Permits, Answers, Room, Goto;
    LogStep(s, a);
    if Logged(s, a).Some? { AnswersSnoc(s.log, Logged(s, a).value); }
  }

  /** Whatever the tasks and the receiver do in between leaves the client half where it was. */
  lemma OtherStep(s: State, q: Served, a: Action)
    requires Refines(s, q) && Enabled(s, a) && !ByWriter(a)
    ensures Refines(Apply(s, a), q)
  {
    hide Permits, Answers, Room;
    LogStep(s, a);
    if Logged(s, a).Some? { AnswersSnoc(s.log, Logged(s, a).value); }
  }

  lemma {:induction false} EveryRunServes(actions: seq<Action>)
    requires Exec(actions).Some?
    ensures Refines(Exec(actions).value, ServeAll(NOTHING_SERVED, Requests(actions)))
    decreases |actions|
  {
    if actions != [] {
      var n := |actions| - 1;
      EveryRunServes(actions[..n]);
      var before := Requests(actions[..n]);
      var s, q := Exec(actions[..n]).value, ServeAll(NOTHING_SERVED, before);
      if ByWriter(actions[n]) { OwnStep(s, q, actions[n]); } else { OtherStep(s, q, actions[n]); }
      if actions[n].Handle? {
        ServeAllSnoc(NOTHING_SERVED, before, actions[n].request);
      } else {
        assert before + [] == before;
      }
    }
  }

  // Requests are messages.

  /** The bytes of an answer. */
  function Wire(e: Event): (d: seq<Byte>) {
    match e
    case StartAck => ClientHalf.AudioReply(ClientHalf.START_ENCODER, true)
    case StartRefused => ClientHalf.AudioReply(ClientHalf.START_ENCODER, false)
    case DisableAck => ClientHalf.AudioReply(ClientHalf.START_ENCODER, false)
    case Granted(_) => ClientHalf.AudioReply(ClientHalf.CONTINUOUS_UPDATES, true)
    case Refused => ClientHalf.AudioReply(ClientHalf.CONTINUOUS_UPDATES, false)
    case Closing(_) => ClientHalf.AudioReply(ClientHalf.CONTINUOUS_UPDATES, false)
    case Support => ClientHalf.AUDIO_SUPPORT
    case _ => []
  }

  /** The closing notice of a task is the answer that refuses updates. */
  lemma ClosingPrinted(task: TaskId)
    ensures Wire(Closing(task)) == [245, 2, 0, 1, 0] == Wire(Refused)
  {
  }

  function Wires(es: seq<Event>): (d: seq<seq<Byte>>) {
    seq(|es|, i requires 0 <= i < |es| => Wire(es[i]))
  }

  lemma WiresSnoc(es: seq<Event>, e: Event)
    ensures Wires(es + [e]) == Wires(es) + [Wire(e)]
  {
  }

  /** The requests a message makes: an audio command one, a list of encodings one for each confirmation. */
  function RequestsOf(m: ClientParser.Message, streamOk: bool): (r: seq<Request>) {
    match m
    case StartContinuousUpdates(_) => [Updates]
    case StartEncoder(_, enabled, _, _, _) => [if enabled then Start(streamOk) else Disable]
    case SetEncodings(d) => Confirming(|ClientHalf.Confirmations(d, 4)|)
    case _ => []
  }

  function Confirming(n: nat): (r: seq<Request>) { seq(n, i => Encodings) }

  function AllRequests(ms: seq<ClientParser.Message>, opens: seq<bool>): (r: seq<Request>)
    requires |ms| == |opens|
    decreases |ms|
  {
    if ms == [] then []
    else
      var n := |ms| - 1;
      AllRequests(ms[..n], opens[..n]) + RequestsOf(ms[n], opens[n])
  }

  /** The effects on values and the requests served agree. */
  ghost predicate Agrees(e: ClientHalf.Effects, q: Served) {
    && e.audio.Some? == q.encoder && e.stop == q.stop && |e.tasks| == q.spawned
    && e.toClient == Wires(q.answers)
  }

  lemma {:induction false} ConfirmingServed(q: Served, n: nat)
    ensures ServeAll(q, Confirming(n)) == q.(answers := q.answers + seq(n, i => Support))
  {
    if n > 0 {
      ConfirmingServed(q, n - 1);
      assert Confirming(n) == Confirming(n - 1) + [Encodings];
      ServeAllSnoc(q, Confirming(n - 1), Encodings);
      assert seq(n, i => Support) == seq(n - 1, i => Support) + [Support];
      assert q.answers + seq(n - 1, i => Support) + [Support] == q.answers + seq(n, i => Support);
    } else {
      assert q.answers + seq(0, i => Support) == q.answers;
    }
  }

  /** Confirmations are all alike. */
  lemma {:induction false} SupportAt(d: seq<Byte>, i: nat, k: nat)
    requires k < |ClientHalf.Confirmations(d, i)|
    ensures ClientHalf.Confirmations(d, i)[k] == Wire(Support)
    decreases |d| - i
  {
    var rest := ClientHalf.Confirmations(d, i + 4);
    if ClientHalf.Confirmations(d, i) == rest {
      SupportAt(d, i + 4, k);
    } else if k > 0 {
      assert ClientHalf.Confirmations(d, i) == [Wire(Support)] + rest;
      SupportAt(d, i + 4, k - 1);
    }
  }

  lemma ConfirmationsServed(q: Served, d: seq<Byte>, i: nat)
    ensures var c := ClientHalf.Confirmations(d, i);
            var r := ServeAll(q, Confirming(|c|));
            r == q.(answers := r.answers) && Wires(r.answers) == Wires(q.answers) + c
  {
    hide Wire, ServeAll, Confirming, ClientHalf.Confirmations;
    var c := ClientHalf.Confirmations(d, i);
    ConfirmingServed(q, |c|);
    var es := q.answers + seq(|c|, i => Support);
    forall k | 0 <= k < |es| ensures Wires(es)[k] == (Wires(q.answers) + c)[k] {
      if k >= |q.answers| { SupportAt(d, i, k - |q.answers|); }
    }
    assert Wires(es) == Wires(q.answers) + c;
  }

  lemma CommandServed(e: ClientHalf.Effects, q: Served, m: ClientParser.Message, streamOk: bool)
    requires Agrees(e, q) && ClientHalf.Intercepted(m)
    ensures RequestsOf(m, streamOk) == [RequestsOf(m, streamOk)[0]]
    ensures Agrees(ClientHalf.Handle(e, m, streamOk), Serve(q, RequestsOf(m, streamOk)[0]))
  {
    hide Wires;
    var r := Serve(q, RequestsOf(m, streamOk)[0]);
    var answer := r.answers[|q.answers|];
    assert r.answers == q.answers + [answer];
    WiresSnoc(q.answers, answer);
  }

  lemma MessageServed(e: ClientHalf.Effects, q: Served, m: ClientParser.Message, streamOk: bool)
    requires Agrees(e, q)
    ensures Agrees(ClientHalf.Handle(e, m, streamOk), ServeAll(q, RequestsOf(m, streamOk)))
  {
    hide Wires, ClientHalf.Confirmations, Serve, Confirming;
    if m.SetEncodings? {
      ConfirmationsServed(q, m.payload, 4);
    } else if ClientHalf.Intercepted(m) {
      CommandServed(e, q, m, streamOk);
      var request := RequestsOf(m, streamOk)[0];
      ServeAllSnoc(q, [], request);
      assert [] + [request] == [request];
    }
  }

  lemma {:induction false} MessagesServed(bpp: nat, ms: seq<ClientParser.Message>, opens: seq<bool>)
    requires |ms| == |opens|
    ensures Agrees(ClientHalf.HandleAll(ClientHalf.Initial(bpp), ms, opens),
                   ServeAll(NOTHING_SERVED, AllRequests(ms, opens)))
    decreases |ms|
  {
    hide ClientHalf.Handle;
    if ms != [] {
      var n := |ms| - 1;
      MessagesServed(bpp, ms[..n], opens[..n]);
      MessageServed(ClientHalf.HandleAll(ClientHalf.Initial(bpp), ms[..n], opens[..n]),
                    ServeAll(NOTHING_SERVED, AllRequests(ms[..n], opens[..n])), ms[n], opens[n]);
      ServeAllAppend(NOTHING_SERVED, AllRequests(ms[..n], opens[..n]), RequestsOf(ms[n], opens[n]));
    }
  }

  /**
   Every run of the session in which the client half has handled these messages ends, between messages,
   where handling them one after the other ends: the same encoder and stop channel, as many tasks, and the
   same answers in the same order. After a shutdown what was sent is a part of those answers.
   */
  lemma EveryRunIsSequential(actions: seq<Action>, bpp: nat, ms: seq<ClientParser.Message>, opens: seq<bool>)
    requires Exec(actions).Some? && |ms| == |opens| && Requests(actions) == AllRequests(ms, opens)
    ensures var s := Exec(actions).value;
            var e := ClientHalf.HandleAll(ClientHalf.Initial(bpp), ms, opens);
            && (s.writer.Idle? ==>
                  && s.encoder == e.audio.Some? && s.stopChan == e.stop && |s.tasks| == |e.tasks|
                  && Wires(Answers(s.log)) == e.toClient)
            && (s.writer.Gone? ==> Wires(Answers(s.log)) <= e.toClient)
  {
    hide Exec, Requests, AllRequests, ServeAll, Answers;
    EveryRunServes(actions);
    MessagesServed(bpp, ms, opens);
  }
}
