/**
 Cutting a byte stream into messages with a parser that asks for more. Both directions of the proxy
 buffer what arrives and parse the front of the buffer again and again (src/rfb.rs).
 */
module Framing {
  import opened Bytes

  /** A parser of the front of a buffer, and the bytes each of its messages occupies. */
  datatype Framer<!M> = Framer(parse: seq<Byte> -> Result<M>, bytes: M -> seq<Byte>) {
    /** Messages are non-empty prefixes of the buffer, and more input changes no settled outcome. */
    ghost predicate Lawful() {
      && (forall s :: parse(s).Ok? ==> bytes(parse(s).value) <= s && bytes(parse(s).value) != [])
      && (forall s, t :: s <= t && parse(s) != Err(Incomplete) ==> parse(t) == parse(s))
    }

    /** The bytes of each message. */
    ghost function Parts(messages: seq<M>): (d: seq<seq<Byte>>)
      ensures |d| == |messages| && forall i | 0 <= i < |d| :: d[i] == bytes(messages[i])
    {
      seq(|messages|, i requires 0 <= i < |messages| => bytes(messages[i]))
    }

    /** Every message at the front of the stream, until one is incomplete or malformed. */
    ghost function CutAll(s: seq<Byte>): (c: Cut<M>)
      requires Lawful()
      decreases |s|
    {
      match parse(s)
      case Err(e) => Cut([], s, e == Other)
      case Ok(m) => CutAll(s[|bytes(m)|..]).After([m])
    }

    /** The messages and the rest are the stream. */
    lemma {:induction false} CutConserves(s: seq<Byte>)
      requires Lawful()
      ensures Flatten(Parts(CutAll(s).messages)) + CutAll(s).rest == s
      decreases |s|
    {
      if parse(s).Ok? {
        var m := parse(s).value;
        var tail := s[|bytes(m)|..];
        CutStep(s);
        assert s == bytes(m) + tail;
        hide CutAll, Lawful;
        CutConserves(tail);
        FlattenFirst(m, CutAll(tail).messages, CutAll(tail).rest);
      }
    }

    lemma FlattenFirst(m: M, ms: seq<M>, rest: seq<Byte>)
      ensures Flatten(Parts([m] + ms)) + rest == bytes(m) + (Flatten(Parts(ms)) + rest)
    {
      assert Parts([m] + ms)[1..] == Parts(ms);
    }

    /** The rest is cut no further. */
    lemma {:induction false} CutStops(s: seq<Byte>)
      requires Lawful()
      ensures var c := CutAll(s); parse(c.rest) == Err(if c.failed then Other else Incomplete)
      decreases |s|
    {
      if parse(s).Ok? { CutStops(s[|bytes(parse(s).value)|..]); }
    }

    lemma CutStep(s: seq<Byte>)
      requires Lawful() && parse(s).Ok?
      ensures var m := parse(s).value;
              var n := |bytes(m)|;
              0 < n <= |s| && CutAll(s) == CutAll(s[n..]).After([m])
    {
    }

    lemma SettledAppend(s: seq<Byte>, t: seq<Byte>)
      requires Lawful() && parse(s) != Err(Incomplete)
      ensures parse(s + t) == parse(s)
    {
    }

    lemma FedAfter(c: Cut<M>, done: seq<M>, t: seq<Byte>)
      requires Lawful()
      ensures Fed(c.After(done), t) == Fed(c, t).After(done)
    {
      hide Lawful, CutAll;
      var d := CutAll(c.rest + t);
      assert done + (c.messages + d.messages) == done + c.messages + d.messages;
    }

    /** Cutting a longer stream goes on where cutting a shorter one stopped. */
    lemma {:induction false} CutAppend(s: seq<Byte>, t: seq<Byte>)
      requires Lawful()
      ensures CutAll(s + t) == Fed(CutAll(s), t)
      decreases |s|, 1
    {
      if parse(s).Ok? {
        CutAppendStep(s, t);
      } else if parse(s) == Err(Other) {
        SettledAppend(s, t);
      } else {
        assert [] + CutAll(s + t).messages == CutAll(s + t).messages;
      }
    }

    lemma {:induction false} CutAppendStep(s: seq<Byte>, t: seq<Byte>)
      requires Lawful() && parse(s).Ok?
      ensures CutAll(s + t) == Fed(CutAll(s), t)
      decreases |s|, 0
    {
      hide Lawful, CutAll, Fed;
      CutStep(s);
      var m := parse(s).value;
      var tail := s[|bytes(m)|..];
      SettledAppend(s, t);
      CutStep(s + t);
      CutAppend(tail, t);
      assert (s + t)[|bytes(m)|..] == tail + t;
      FedAfter(CutAll(tail), [m], t);
    }

    /** What a reader that has cut so much does with the next read. */
    ghost function Fed(c: Cut<M>, chunk: seq<Byte>): (d: Cut<M>)
      requires Lawful()
    {
      if c.failed then c.(rest := c.rest + chunk) else CutAll(c.rest + chunk).After(c.messages)
    }

    ghost function FedAll(c: Cut<M>, chunks: seq<seq<Byte>>): (d: Cut<M>)
      requires Lawful()
      decreases |chunks|
    {
      if chunks == [] then c else FedAll(Fed(c, chunks[0]), chunks[1..])
    }

    /** Where the stream is cut by reads makes no difference to the messages or to what is left. */
    lemma {:induction false} ChunkingIrrelevant(s: seq<Byte>, chunks: seq<seq<Byte>>)
      requires Lawful()
      ensures FedAll(CutAll(s), chunks) == CutAll(s + Flatten(chunks))
      decreases |chunks|
    {
      hide Lawful, CutAll, Fed;
      if chunks == [] {
        assert s + [] == s;
      } else {
        CutAppend(s, chunks[0]);
        ChunkingIrrelevant(s + chunks[0], chunks[1..]);
        assert s + chunks[0] + Flatten(chunks[1..]) == s + Flatten(chunks);
      }
    }

    /** A reader that has emitted `done` from a buffer holding `rest`, with the whole stream `s` read. */
    ghost predicate InStep(s: seq<Byte>, done: seq<M>, rest: seq<Byte>)
      requires Lawful()
    {
      CutAll(s) == CutAll(rest).After(done)
    }

    /** Emitting the message at the front of the buffer keeps in step. */
    lemma InStepEmit(s: seq<Byte>, done: seq<M>, rest: seq<Byte>)
      requires Lawful() && InStep(s, done, rest) && parse(rest).Ok?
      ensures var m := parse(rest).value; InStep(s, done + [m], rest[|bytes(m)|..])
    {
      hide CutAll;
      CutStep(rest);
      var m := parse(rest).value;
      var c := CutAll(rest[|bytes(m)|..]);
      assert done + ([m] + c.messages) == done + [m] + c.messages;
    }

    /** Reading more keeps in step. */
    lemma InStepRead(s: seq<Byte>, done: seq<M>, rest: seq<Byte>, chunk: seq<Byte>)
      requires Lawful() && InStep(s, done, rest) && parse(rest) == Err(Incomplete)
      ensures InStep(s + chunk, done, rest + chunk)
    {
      CutAppend(s, chunk);
      assert done + [] == done;
    }

    /** Two readers of the same stream that both wait for more have emitted the same messages. */
    lemma InStepDetermined(s: seq<Byte>, done1: seq<M>, rest1: seq<Byte>, done2: seq<M>, rest2: seq<Byte>)
      requires Lawful() && InStep(s, done1, rest1) && InStep(s, done2, rest2)
      requires parse(rest1) == Err(Incomplete) == parse(rest2)
      ensures done1 == done2 == CutAll(s).messages && rest1 == rest2 == CutAll(s).rest
    {
      assert done1 + [] == done1 && done2 + [] == done2;
    }
  }

  /** Messages cut from a stream, what is left, and whether that begins with a malformed message. */
  datatype Cut<M> = Cut(messages: seq<M>, rest: seq<Byte>, failed: bool) {
    ghost function After(done: seq<M>): (c: Cut<M>) { Cut(done + messages, rest, failed) }
  }
}
