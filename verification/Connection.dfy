/** src/main.rs, `handle_connection`: its two loops. */
module Connection {
  import opened Bytes
  import opened Framing
  import opened ServerHalf
  import opened ServerParser
  import ClientHalf
  import ClientParser
  import ClientSession

  /** `out` holds the items of `a` and of `b`, each list whole and in its own order. */
  ghost predicate Interleaves<T(!new)>(out: seq<T>, a: seq<T>, b: seq<T>)
    decreases |out|
  {
    if out == [] then a == [] && b == []
    else
      var init, last := out[..|out| - 1], out[|out| - 1];
      || (a != [] && a[|a| - 1] == last && Interleaves(init, a[..|a| - 1], b))
      || (b != [] && b[|b| - 1] == last && Interleaves(init, a, b[..|b| - 1]))
  }

  lemma InterleavesLeft<T(!new)>(out: seq<T>, a: seq<T>, b: seq<T>, x: T)
    requires Interleaves(out, a, b)
    ensures Interleaves(out + [x], a + [x], b)
  {
    assert (out + [x])[..|out|] == out && (a + [x])[..|a|] == a;
  }

  lemma InterleavesRight<T(!new)>(out: seq<T>, a: seq<T>, b: seq<T>, x: T)
    requires Interleaves(out, a, b)
    ensures Interleaves(out + [x], a, b + [x])
  {
    assert (out + [x])[..|out|] == out && (b + [x])[..|b|] == b;
  }

  lemma {:induction false} InterleavesMultiset<T(!new)>(out: seq<T>, a: seq<T>, b: seq<T>)
    requires Interleaves(out, a, b)
    ensures multiset(out) == multiset(a) + multiset(b)
    decreases |out|
  {
    if out != [] {
      var init, last := out[..|out| - 1], out[|out| - 1];
      MultisetLast(out);
      if a != [] && a[|a| - 1] == last && Interleaves(init, a[..|a| - 1], b) {
        InterleavesMultiset(init, a[..|a| - 1], b);
        MultisetLast(a);
      } else {
        InterleavesMultiset(init, a, b[..|b| - 1]);
        MultisetLast(b);
      }
    }
  }

  lemma MultisetLast<T(!new)>(s: seq<T>)
    requires s != []
    ensures multiset(s) == multiset(s[..|s| - 1]) + multiset{s[|s| - 1]}
  {
    assert s == s[..|s| - 1] + [s[|s| - 1]];
  }

  /** The places of a list in another: increasing, and the items themselves. */
  ghost predicate Placed<T(!new)>(places: seq<nat>, items: seq<T>, out: seq<T>) {
    && |places| == |items|
    && (forall k | 0 <= k < |places| :: places[k] < |out| && out[places[k]] == items[k])
    && (forall j, k | 0 <= j < k < |places| :: places[j] < places[k])
  }

  /** Every place below `n` is in exactly one of the two. */
  ghost predicate Covers(left: seq<nat>, right: seq<nat>, n: nat) {
    forall i | 0 <= i < n :: i in left <==> i !in right
  }

  lemma CoversNext(left: seq<nat>, right: seq<nat>, n: nat)
    requires Covers(left, right, n)
    requires forall k | 0 <= k < |right| :: right[k] < n
    ensures Covers(left + [n], right, n + 1) && Covers(right, left + [n], n + 1)
  {
    assert n !in right;
    assert forall i | 0 <= i <= n :: i in left + [n] <==> i in left || i == n;
  }

  /** Each list keeps its order, and every item of the interleaving belongs to exactly one of them. */
  lemma InterleavesPlaces<T(!new)>(out: seq<T>, a: seq<T>, b: seq<T>) returns (left: seq<nat>, right: seq<nat>)
    requires Interleaves(out, a, b)
    ensures Placed(left, a, out) && Placed(right, b, out)
    ensures forall i | 0 <= i < |out| :: i in left <==> i !in right
  {
    left, right := Places(out, a, b);
  }

  lemma {:induction false} Places<T(!new)>(out: seq<T>, a: seq<T>, b: seq<T>) returns (left: seq<nat>, right: seq<nat>)
    requires Interleaves(out, a, b)
    ensures Placed(left, a, out) && Placed(right, b, out) && Covers(left, right, |out|)
    decreases |out|
  {
    hide Placed, Covers;
    left, right := [], [];
    if out == [] {
      NothingPlaced(out);
    } else {
      var n := |out| - 1;
      if a != [] && a[|a| - 1] == out[n] && Interleaves(out[..n], a[..|a| - 1], b) {
        left, right := Places(out[..n], a[..|a| - 1], b);
        PlaceLast(out, a, b, left, right);
        left := left + [n];
      } else {
        left, right := Places(out[..n], a, b[..|b| - 1]);
        CoversBack(left, right, n);
        PlaceLast(out, b, a, right, left);
        right := right + [n];
        CoversBack(right, left, n + 1);
      }
    }
  }

  lemma NothingPlaced<T(!new)>(out: seq<T>)
    ensures Placed([], [], out) && Covers([], [], 0)
  {
  }

  lemma CoversBack(left: seq<nat>, right: seq<nat>, n: nat)
    requires Covers(left, right, n)
    ensures Covers(right, left, n)
  {
  }

  /** The last item goes to `a`. */
  lemma PlaceLast<T(!new)>(out: seq<T>, a: seq<T>, b: seq<T>, left: seq<nat>, right: seq<nat>)
    requires out != [] && a != [] && a[|a| - 1] == out[|out| - 1]
    requires Placed(left, a[..|a| - 1], out[..|out| - 1]) && Placed(right, b, out[..|out| - 1])
    requires Covers(left, right, |out| - 1)
    ensures Placed(left + [|out| - 1], a, out) && Placed(right, b, out)
    ensures Covers(left + [|out| - 1], right, |out|)
  {
    hide Placed, Covers;
    var n := |out| - 1;
    PlacedNext(left, a[..|a| - 1], out[..n], out[n]);
    PlacedLater(right, b, out[..n], out);
    CoversNext(left, right, n);
    assert a == a[..|a| - 1] + [out[n]] && out == out[..n] + [out[n]];
  }

  lemma PlacedNext<T(!new)>(places: seq<nat>, items: seq<T>, out: seq<T>, x: T)
    requires Placed(places, items, out)
    ensures Placed(places + [|out|], items + [x], out + [x])
    ensures forall k | 0 <= k < |places| :: places[k] < |out|
  {
  }

  lemma PlacedLater<T(!new)>(places: seq<nat>, items: seq<T>, out: seq<T>, more: seq<T>)
    requires Placed(places, items, out) && out <= more
    ensures Placed(places, items, more) && forall k | 0 <= k < |places| :: places[k] < |out|
  {
  }

  lemma NothingInterleaved(injected: seq<seq<Byte>>)
    ensures Interleaves([], Payloads([]), injected[..0])
  {
  }

  /** `Some(payload) = client_rx.recv()`: the message is the next one for the WebSocket. */
  method Inject(handed: seq<seq<Byte>>, ghost fromServer: seq<seq<Byte>>, injected: seq<seq<Byte>>, i: nat)
    returns (r: seq<seq<Byte>>)
    requires i < |injected| && Interleaves(handed, fromServer, injected[..i])
    ensures Interleaves(r, fromServer, injected[..i + 1]) && |r| == |handed| + 1
  {
    hide Interleaves;
    InterleavesRight(handed, fromServer, injected[..i], injected[i]);
    assert injected[..i] + [injected[i]] == injected[..i + 1];
    r := handed + [injected[i]];
  }

  /** How one send to the WebSocket ends, and the pixel size the client half has stored by then. */
  datatype Send = Done(bpp: nat) | Error

  ghost predicate FixedSends(sends: seq<Send>, bpp: nat) {
    forall k | 0 <= k < |sends| && sends[k].Done? :: sends[k].bpp == bpp
  }

  datatype Finish = Closed | Failed | Waiting | Sending | SendFailed

  /** Why the loop is over: a read that stays pending, a malformed message, or the last await. */
  ghost predicate Ended(half: ReadHalf, events: seq<Await>, finish: Finish)
    reads half, half.state
  {
    var parsed := ParseServer(half.buf, half.state.bytesPerPixel);
    match finish
    case Waiting => half.socket == [] && parsed == Err(Incomplete)
    case Closed => LastAwait(half, events, End)
    case Failed => parsed == Err(Other) || LastAwait(half, events, ReadError) || LastAwait(half, events, ResetByPeer)
    case _ => false
  }

  ghost predicate LastAwait(half: ReadHalf, events: seq<Await>, outcome: Outcome)
    reads half
  {
    events != [] && Ending(events[|events| - 1], half.buf) == Some(outcome)
  }

  /** All but the last message handed to the WebSocket have been sent, and the last one unless a send is to blame. */
  ghost predicate Accounted(handed: seq<seq<Byte>>, sends: seq<Send>, sent: nat, finish: Finish) {
    && sent <= |sends| && (forall k | 0 <= k < sent :: sends[k].Done?)
    && match finish
       case Sending => |handed| == sent + 1 && sent == |sends|
       case SendFailed => |handed| == sent + 1 && sent < |sends| && sends[sent].Error?
       case _ => |handed| == sent
  }

  /** The pixel size is the first one, or was stored during one of these awaits or sends. */
  ghost predicate Stored(size: nat, first: nat, events: seq<Await>, sends: seq<Send>) {
    || size == first
    || (exists e :: e in events && !e.Broken? && e.bpp == size)
    || exists d :: d in sends && d.Done? && d.bpp == size
  }

  ghost predicate AllStored(sizes: seq<nat>, first: nat, events: seq<Await>, sends: seq<Send>) {
    forall k | 0 <= k < |sizes| :: Stored(sizes[k], first, events, sends)
  }

  lemma {:induction false} SizeStored(now: nat, first: nat, events: seq<Await>, i: nat, n: nat, sends: seq<Send>)
    requires i + n <= |events| && Stored(now, first, events[..i], sends)
    ensures Stored(SizeAfter(now, events[i..][..n]), first, events[..i + n], sends)
    decreases n
  {
    if n == 0 {
      StoredLater(now, first, events[..i], events[..i], sends, sends);
    } else {
      SizeStored(now, first, events, i, n - 1, sends);
      SizeNext(now, events[i..], n - 1);
      StoredLater(SizeAfter(now, events[i..][..n - 1]), first, events[..i + n - 1], events[..i + n], sends, sends);
      assert events[i..][n - 1] == events[..i + n][i + n - 1];
    }
  }

  lemma StoredLater(size: nat, first: nat, e1: seq<Await>, e2: seq<Await>, s1: seq<Send>, s2: seq<Send>)
    requires Stored(size, first, e1, s1) && e1 <= e2 && s1 <= s2
    ensures Stored(size, first, e2, s2)
  {
    assert forall e | e in e1 :: e in e2;
    assert forall d | d in s1 :: d in s2;
  }

  lemma AllStoredLater(sizes: seq<nat>, first: nat, e1: seq<Await>, e2: seq<Await>, s1: seq<Send>, s2: seq<Send>)
    requires AllStored(sizes, first, e1, s1) && e1 <= e2 && s1 <= s2
    ensures AllStored(sizes, first, e2, s2)
  {
    hide Stored;
    forall k | 0 <= k < |sizes| ensures Stored(sizes[k], first, e2, s2) {
      StoredLater(sizes[k], first, e1, e2, s1, s2);
    }
  }

  /** What one round leaves stored, when it may have parsed one more message. */
  lemma StoredByRound(
    sizes: seq<nat>, after: seq<nat>, now: nat, first: nat, events: seq<Await>, i: nat, n: nat, sends: seq<Send>)
    requires i + n <= |events| && AllStored(sizes, first, events[..i], sends) && Stored(now, first, events[..i], sends)
    requires after == sizes || after == sizes + [SizeAfter(now, events[i..][..n])]
    ensures AllStored(after, first, events[..i + n], sends)
    ensures Stored(SizeAfter(now, events[i..][..n]), first, events[..i + n], sends)
  {
    hide Stored;
    assert events[..i] <= events[..i + n];
    AllStoredLater(sizes, first, events[..i], events[..i + n], sends, sends);
    SizeStored(now, first, events, i, n, sends);
  }

  lemma StoredBySend(sizes: seq<nat>, first: nat, events: seq<Await>, sends: seq<Send>, k: nat)
    requires k < |sends| && sends[k].Done? && AllStored(sizes, first, events, sends[..k])
    ensures AllStored(sizes, first, events, sends[..k + 1]) && Stored(sends[k].bpp, first, events, sends[..k + 1])
  {
    hide AllStored;
    assert sends[..k] <= sends[..k + 1];
    AllStoredLater(sizes, first, events, events, sends[..k], sends[..k + 1]);
    assert sends[..k + 1][k] == sends[k];
  }

  /** When no other pixel size is stored, every message is parsed with the first one. */
  lemma FixedStored(sizes: seq<nat>, first: nat, events: seq<Await>, sends: seq<Send>)
    requires AllStored(sizes, first, events, sends) && Fixed(events, first) && FixedSends(sends, first)
    ensures forall k | 0 <= k < |sizes| :: sizes[k] == first
  {
    forall k | 0 <= k < |sizes| ensures sizes[k] == first {
      assert Stored(sizes[k], first, events, sends);
      assert forall d | d in sends && d.Done? :: d.bpp == first;
    }
  }

  /** Without a change of pixel size, or with a pixel-free stream, the reader is in step with the whole stream. */
  lemma StaysInStep(half: ReadHalf, first: nat, events: seq<Await>, sends: seq<Send>)
    requires half.Valid() && AllStored(half.sizes, first, events, sends)
    requires Stored(half.state.bytesPerPixel, first, events, sends)
    ensures (Fixed(events, first) && FixedSends(sends, first)) || PixelFreeStream(half.received, first) ==>
              && half.InStep(half.state.bytesPerPixel)
              && (ParseServer(half.buf, half.state.bytesPerPixel) == Err(Incomplete) ==>
                    half.emitted == ServerCut(half.received, first).messages)
  {
    hide ParseServer, PixelFreeStream, ReadHalf.InStep, ReadHalf.Valid, ServerCut;
    var now := half.state.bytesPerPixel;
    if ParseServer(half.buf, now) == Err(Incomplete) { half.WaitingComplete(now); }
    if Fixed(events, first) && FixedSends(sends, first) {
      FixedStored(half.sizes, first, events, sends);
      FixedStored([now], first, events, sends);
      assert [now][0] == first;
      half.FixedInStep(first);
    } else if PixelFreeStream(half.received, first) {
      half.PixelFreeInStep(first, now);
      CutImmune(half.received, first, now);
    }
  }

  /** What a round of the select came to: a message for the WebSocket, nothing, or the end of the loop. */
  datatype Round = Payload | Nothing | Over(finish: Finish)

  /**
   One round of the select: an injected message is taken without polling the read; or the read is polled
   and, when it is cancelled at its await or stays pending, an injected message is taken if there is one.
   */
  method Select(half: ReadHalf, injected: seq<seq<Byte>>, i: nat, handed: seq<seq<Byte>>, debug: bool)
    returns (round: Round, taken: nat, now: seq<seq<Byte>>, ghost used: nat)
    requires half.Valid() && i <= |injected| && Interleaves(handed, Payloads(half.emitted), injected[..i])
    modifies half, half.state
    ensures half.Valid() && i <= taken <= |injected|
    ensures Interleaves(now, Payloads(half.emitted), injected[..taken])
    ensures |now| == |handed| + (if round.Payload? then 1 else 0)
    ensures used <= |old(half.socket)| && half.socket == old(half.socket)[used..]
    ensures half.received == old(half.received) + Delivered(old(half.socket)[..used])
    ensures half.state.bytesPerPixel == SizeAfter(old(half.state.bytesPerPixel), old(half.socket)[..used])
    ensures half.sizes == old(half.sizes) || half.sizes == old(half.sizes) + [half.state.bytesPerPixel]
    ensures round.Over? || used > 0 || taken > i || |half.buf| < |old(half.buf)|
    ensures round.Over? ==> Ended(half, old(half.socket)[..used], round.finish)
    ensures round == Over(Closed) ==> half.buf == [] && Flatten(Payloads(half.emitted)) == half.received
    ensures round == Over(Waiting) ==> taken == |injected|
  {
    hide Interleaves, Flatten, Payloads, Delivered, SizeAfter, ParseServer, ReadHalf.Valid;
    round, taken, now, used := Payload, i, handed, 0;
    DeliveredNothing(half.socket);
    SizeUnchanged(half.state.bytesPerPixel, half.socket);
    var injectionFirst: bool := *;
    var outcome := Pending;
    if !(injectionFirst && i < |injected|) {
      outcome, used := half.ReadServerMessage(debug);
      if outcome.Received? {
        InterleavesLeft(handed, Payloads(old(half.emitted)), injected[..i], outcome.message.payload);
        PayloadsSnoc(old(half.emitted), outcome.message);
        now := handed + [outcome.message.payload];
        return;
      }
      if outcome.End? { return Over(Closed), i, handed, used; }
      if !outcome.Cancelled? && !outcome.Pending? { return Over(Failed), i, handed, used; }
      if i == |injected| { return (if outcome.Pending? then Over(Waiting) else Nothing), i, handed, used; }
    }
    now := Inject(handed, Payloads(half.emitted), injected, i);
    taken := i + 1;
  }

  /**
   The server-to-client loop over everything the socket and the injection channel offer: rounds of the
   select, each message sent before the next one is looked for. The messages from the server are whole: they
   are cut one after the other from the bytes read, each with a pixel size in force at some time.
   */
  method ServerToClient(half: ReadHalf, injected: seq<seq<Byte>>, sends: seq<Send>, debug: bool)
    returns (handed: seq<seq<Byte>>, sent: nat, finish: Finish, taken: nat, ghost used: nat)
    requires half.Valid() && half.emitted == [] && half.received == [] && half.buf == [] && half.sizes == []
    modifies half, half.state
    ensures half.Valid() && taken <= |injected|
    ensures Interleaves(handed, Payloads(half.emitted), injected[..taken]) && Accounted(handed, sends, sent, finish)
    ensures finish.Closed? ==> half.buf == [] && Flatten(Payloads(half.emitted)) == half.received
    ensures finish.Waiting? ==> half.socket == [] && taken == |injected|
    ensures used <= |old(half.socket)| && half.socket == old(half.socket)[used..]
    ensures finish.Closed? || finish.Failed? || finish.Waiting? ==> Ended(half, old(half.socket)[..used], finish)
    ensures half.received == Delivered(old(half.socket)[..used])
    ensures Framed(half.received, half.emitted, half.sizes, half.buf)
    ensures AllStored(half.sizes, old(half.state.bytesPerPixel), old(half.socket)[..used], sends[..sent])
    ensures var b, events := old(half.state.bytesPerPixel), old(half.socket)[..used];
            (Fixed(events, b) && FixedSends(sends[..sent], b)) || PixelFreeStream(half.received, b) ==>
              && half.InStep(half.state.bytesPerPixel)
              && (finish.Waiting? ==> half.emitted == ServerCut(half.received, b).messages)
  {
    hide Interleaves, Fixed, FixedSends, Flatten, Payloads, Delivered, ServerCut, ParseServer, PixelFreeStream;
    hide ReadHalf.Valid, ReadHalf.InStep, Ended, AllStored, Stored, SizeAfter, Framed;
    handed, sent, taken, used := [], 0, 0, 0;
    ghost var b := half.state.bytesPerPixel;
    DeliveredNothing(half.socket);
    NothingStored(b, half.socket, sends);
    assert Interleaves(handed, Payloads(half.emitted), injected[..0]) by { NothingInterleaved(injected); }
    while true
      invariant half.Valid() && taken <= |injected|
      invariant used <= |old(half.socket)| && half.socket == old(half.socket)[used..]
      invariant half.received == Delivered(old(half.socket)[..used])
      invariant Interleaves(handed, Payloads(half.emitted), injected[..taken])
      invariant Accounted(handed, sends, sent, Waiting)
      invariant AllStored(half.sizes, b, old(half.socket)[..used], sends[..sent])
      invariant Stored(half.state.bytesPerPixel, b, old(half.socket)[..used], sends[..sent])
      decreases |half.socket|, |injected| - taken, |half.buf|
    {
      ghost var sizes, here := half.sizes, half.state.bytesPerPixel;
      var round;
      ghost var more;
      round, taken, handed, more := Select(half, injected, taken, handed, debug);
      DeliveredJoin(old(half.socket), used, more);
      StoredByRound(sizes, half.sizes, here, b, old(half.socket), used, more, sends[..sent]);
      EndedLater(half, old(half.socket), used, more, round);
      used := used + more;
      StaysInStep(half, b, old(half.socket)[..used], sends[..sent]);
      ValidFramed(half);
      match round {
        case Nothing =>
        case Over(f) => return handed, sent, f, taken, used;
        case Payload =>
          if sent == |sends| { return handed, sent, Sending, taken, used; }
          if sends[sent].Error? { return handed, sent, SendFailed, taken, used; }
          StoredBySend(half.sizes, b, old(half.socket)[..used], sends, sent);
          half.state.bytesPerPixel := sends[sent].bpp;
          sent := sent + 1;
      }
    }
  }

  lemma NothingStored(first: nat, events: seq<Await>, sends: seq<Send>)
    ensures AllStored([], first, events[..0], sends[..0]) && Stored(first, first, events[..0], sends[..0])
  {
  }

  lemma ValidFramed(half: ReadHalf)
    requires half.Valid()
    ensures Framed(half.received, half.emitted, half.sizes, half.buf)
  {
  }

  lemma EndedLater(half: ReadHalf, events: seq<Await>, i: nat, n: nat, round: Round)
    requires i + n <= |events|
    ensures round.Over? && Ended(half, events[i..][..n], round.finish) ==> Ended(half, events[..i + n], round.finish)
    ensures round == Over(Waiting) && Ended(half, events[i..][..n], Waiting) ==>
              half.socket == [] && ParseServer(half.buf, half.state.bytesPerPixel) == Err(Incomplete)
  {
  }

  /**
   What the client side offers: bytes, another kind of message, a close, an error. The end of the stream
   without a close only disables its branch: the connection itself holds the sender of the other one.
   */
  datatype FromClient = Chunk(payload: seq<Byte>) | Ignored | Close | Unreadable

  /** The bytes that reach `write_all`. */
  function Input(events: seq<FromClient>): (d: seq<Byte>)
    decreases |events|
  {
    if events == [] then []
    else
      var last := events[|events| - 1];
      Input(events[..|events| - 1]) + (if last.Chunk? then last.payload else [])
  }

  lemma NoInput()
    ensures Input([]) == []
  {
  }

  lemma InputNext(events: seq<FromClient>, n: nat)
    requires n < |events|
    ensures Input(events[..n + 1]) == Input(events[..n]) + (if events[n].Chunk? then events[n].payload else [])
  {
    assert events[..n + 1][..n] == events[..n];
  }

  /** These are the payloads of the chunks, one after the other. */
  lemma {:induction false} InputIsFlat(events: seq<FromClient>)
    ensures Input(events) == Flatten(seq(|events|, i requires 0 <= i < |events| =>
                                           if events[i].Chunk? then events[i].payload else []))
    decreases |events|
  {
    hide Flatten;
    var parts := seq(|events|, i requires 0 <= i < |events| => if events[i].Chunk? then events[i].payload else []);
    if events == [] {
      assert Flatten(parts) == [] by { FlattenNothing(parts); }
    } else {
      var n := |events| - 1;
      InputIsFlat(events[..n]);
      var init := seq(n, i requires 0 <= i < n => if events[..n][i].Chunk? then events[..n][i].payload else []);
      assert parts == init + [parts[n]];
      FlattenSnoc(init, parts[n]);
    }
  }

  lemma FlattenNothing(parts: seq<seq<Byte>>)
    requires parts == []
    ensures Flatten(parts) == []
  {
  }

  datatype Leaving = Departed | Stopped | Aborted | Quiet

  /** What the messages of a client stream amount to at the server. */
  ghost function Expected(received: seq<Byte>): (d: seq<Byte>) {
    Flatten(ClientHalf.Forwarded(ClientHalf.ClientCut(received).messages))
  }

  lemma {:induction false} ForwardedPrefix(a: seq<ClientParser.Message>, b: seq<ClientParser.Message>)
    ensures Flatten(ClientHalf.Forwarded(a)) <= Flatten(ClientHalf.Forwarded(a + b))
    decreases |b|
  {
    hide Flatten;
    if b == [] {
      assert a + b == a;
    } else {
      var n := |b| - 1;
      ForwardedPrefix(a, b[..n]);
      ClientHalf.ForwardedSnoc(a + b[..n], b[n]);
      assert a + b == a + b[..n] + [b[n]];
    }
  }

  /** The messages handled are the first ones of the stream, so nothing out of turn reaches the server. */
  lemma HandledIsExpected(half: ClientHalf.WriteHalf)
    requires half.InStep()
    ensures Flatten(ClientHalf.Forwarded(half.handled)) <= Expected(half.received)
    ensures ClientParser.ParseClient(half.buf).Err? ==>
              Flatten(ClientHalf.Forwarded(half.handled)) == Expected(half.received)
  {
    hide Flatten, ClientHalf.Forwarded, ClientParser.ParseClient;
    ForwardedPrefix(half.handled, ClientHalf.ClientCut(half.buf).messages);
    assert half.handled + [] == half.handled;
  }

  lemma ValidForwards(half: ClientHalf.WriteHalf)
    requires half.Valid()
    ensures half.toServer == Flatten(ClientHalf.Forwarded(half.handled))
  {
    hide Flatten, ClientHalf.Forwarded, ClientHalf.HandleAll;
    ClientHalf.Transparency(ClientHalf.Initial(half.start), half.handled, half.opens);
    assert [] + Flatten(ClientHalf.Forwarded(half.handled)) == Flatten(ClientHalf.Forwarded(half.handled));
  }

  /** The stop receiver kept is that of the latest task, if it was granted and nothing has disabled it since. */
  ghost predicate StopKept(half: ClientHalf.WriteHalf)
    requires half.Idle()
    reads half, half.state
  {
    && (half.stopChan.Some? <==> ClientSession.Running(half.handled, half.opens))
    && (half.stopChan.Some? ==> |half.tasks| > 0 && half.stopChan.value == |half.tasks| - 1)
  }

  lemma IdleStop(half: ClientHalf.WriteHalf)
    requires half.Idle()
    ensures StopKept(half)
  {
    hide ClientSession.Running, ClientHalf.HandleAll, ClientParser.ParseClient, ClientHalf.WriteHalf.InStep;
    ClientSession.StopIffRunning(half.start, half.handled, half.opens);
  }

  const ENABLE_ENCODER: seq<Byte> := [245, 0, 0, 6, 1, 2, 0, 0, 0, 32]
  const START_UPDATES: seq<Byte> := [245, 2, 0, 0]

  lemma CommandsCut()
    ensures ClientHalf.ClientCut(ENABLE_ENCODER + START_UPDATES)
         == Cut([ClientParser.StartEncoder(ENABLE_ENCODER, true, 2, 0, 32),
                 ClientParser.StartContinuousUpdates(START_UPDATES)],
                [], false)
  {
    var s := ENABLE_ENCODER + START_UPDATES;
    var first := ClientParser.StartEncoder(ENABLE_ENCODER, true, 2, 0, 32);
    var second := ClientParser.StartContinuousUpdates(START_UPDATES);
    assert ClientParser.ParseClient(s) == Ok(first) by { ClientParser.ClientGrammar(s, first); }
    assert s[10..] == START_UPDATES;
    assert ClientParser.ParseClient(START_UPDATES) == Ok(second) by {
      ClientParser.ClientGrammar(START_UPDATES, second);
    }
    assert START_UPDATES[4..] == [];
    hide ClientParser.ParseClient, Framer.Lawful, Framer.CutAll;
    ClientHalf.ClientFramerLawful();
    var f := ClientHalf.ClientFramer();
    f.CutStep(s);
    f.CutStep(START_UPDATES);
    CutNothing();
  }

  lemma CutNothing()
    ensures ClientHalf.ClientCut([]) == Cut([], [], false)
  {
  }

  /** A run that a read error leaves with a task going on: one encoder and one start, then the error. */
  lemma TaskLeftRunning(half: ClientHalf.WriteHalf)
    requires half.Idle() && half.received == Input([Chunk(ENABLE_ENCODER + START_UPDATES), Unreadable])
    requires half.opens != [] && half.opens[0]
    ensures half.stopChan == Some(0) && |half.tasks| == 1
  {
    hide ClientParser.ParseClient, ClientHalf.Forwarded, Flatten, ClientHalf.WriteHalf.InStep, ClientHalf.HandleAll;
    hide Input, ClientHalf.ClientCut;
    LastInput(ENABLE_ENCODER + START_UPDATES);
    CommandsCut();
    ClientSession.IdleTransparent(half);
    TwoHandled(ClientHalf.Initial(half.start), half.handled, half.opens);
  }

  lemma LastInput(payload: seq<Byte>)
    ensures Input([Chunk(payload), Unreadable]) == payload
  {
    var events := [Chunk(payload), Unreadable];
    InputNext(events, 0);
    InputNext(events, 1);
    assert events[..2] == events && Input(events[..0]) == [];
  }

  lemma TwoHandled(e: ClientHalf.Effects, ms: seq<ClientParser.Message>, opens: seq<bool>)
    requires |ms| == |opens| == 2
    ensures ClientHalf.HandleAll(e, ms, opens) ==
            ClientHalf.Handle(ClientHalf.Handle(e, ms[0], opens[0]), ms[1], opens[1])
  {
    hide ClientHalf.Handle;
    assert ms == [] + [ms[0]] + [ms[1]] && opens == [] + [opens[0]] + [opens[1]];
    ClientHalf.HandleAllSnoc(e, [], [], ms[0], opens[0]);
    ClientHalf.HandleAllSnoc(e, [] + [ms[0]], [] + [opens[0]], ms[1], opens[1]);
  }

  /**
   The client-to-server loop. Unless a write failed, the server has received exactly the client's
   messages short of the audio commands. The audio task is told to stop when the loop ends by itself; when
   a read error leaves it, a task goes on if and only if one was granted and not disabled since.
   */
  method ClientToServer(half: ClientHalf.WriteHalf, events: seq<FromClient>)
    returns (leaving: Leaving, taken: nat, ghost failed: bool)
    requires half.Idle() && half.received == []
    modifies half, half.state
    ensures taken <= |events| && half.received == Input(events[..taken]) && half.InStep()
    ensures half.toServer <= Expected(half.received)
    ensures !failed ==> half.toServer == Expected(half.received)
    ensures failed ==> leaving.Stopped?
    ensures half.faults == old(half.faults) + (if failed then 1 else 0)
              + (if (leaving.Departed? || leaving.Stopped?) && !half.serverShut then 1 else 0)
    ensures leaving.Quiet? || leaving.Aborted? ==>
              half.Idle() && StopKept(half)
    ensures leaving.Quiet? ==> taken == |events|
    ensures forall i | 0 <= i < taken ::
              && (events[i].Close? ==> i == taken - 1 && leaving.Departed?)
              && (events[i].Unreadable? ==> i == taken - 1 && leaving.Aborted?)
    ensures leaving.Departed? ==> taken > 0 && events[taken - 1].Close?
    ensures leaving.Aborted? ==> taken > 0 && events[taken - 1].Unreadable?
    ensures leaving.Stopped? && !failed ==> ClientParser.ParseClient(half.buf) == Err(Other)
    ensures leaving.Departed? || leaving.Stopped? ==> half.stopChan == None
    ensures half.serverShut ==> leaving.Departed? || leaving.Stopped?
  {
    hide ClientParser.ParseClient, ClientHalf.HandleAll, ClientHalf.Forwarded, Flatten, Input;
    hide ClientHalf.WriteHalf.InStep, Expected;
    taken, failed := 0, false;
    NoInput();
    while taken < |events|
      invariant taken <= |events| && half.Idle() && half.received == Input(events[..taken])
      invariant half.faults == old(half.faults)
      invariant forall i | 0 <= i < taken :: events[i].Chunk? || events[i].Ignored?
    {
      var event := events[taken];
      ValidForwards(half);
      HandledIsExpected(half);
      IdleStop(half);
      InputNext(events, taken);
      taken := taken + 1;
      match event {
        case Chunk(payload) =>
          var written := half.WriteAll(payload);
          HandledIsExpected(half);
          if !written.IoError? { ValidForwards(half); }
          if !written.Done? {
            var _ := half.Shutdown();
            return Stopped, taken, written.IoError?;
          }
        case Ignored =>
        case Close =>
          var _ := half.Shutdown();
          return Departed, taken, false;
        case Unreadable =>
          return Aborted, taken, false;
      }
    }
    ValidForwards(half);
    HandledIsExpected(half);
    IdleStop(half);
    return Quiet, taken, false;
  }
}
