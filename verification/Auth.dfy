/** src/auth.rs: the user name and password the client sends before the session. */
module Auth {
  import opened Bytes
  import opened Io

  datatype Credentials = Credentials(username: seq<Byte>, password: seq<Byte>) {
    predicate Valid() { |username| < 0x1_0000_0000 && |password| < 0x1_0000_0000 }

    /** Both lengths, then both strings. */
    function Encode(): (e: seq<Byte>)
      requires Valid()
      ensures |e| == 8 + |username| + |password|
    {
      Be32(|username|) + Be32(|password|) + (username + password)
    }
  }

  /** What the client's bytes hold so far. */
  function ParseCredentials(s: seq<Byte>): (r: Result<Credentials>) {
    if |s| < 8 then Err(Incomplete)
    else
      var username, password := U32Of(s, 0), U32Of(s, 4);
      if |s| < 8 + username + password then Err(Incomplete)
      else Ok(Credentials(s[8..8 + username], s[8 + username..8 + username + password]))
  }

  /** Reading inverts the encoding, whatever follows it; and nothing else is accepted. */
  lemma CredentialsGrammar(s: seq<Byte>, c: Credentials)
    ensures ParseCredentials(s) == Ok(c) <==> c.Valid() && At(s, 0, c.Encode())
  {
    hide Be32, U32Of;
    if ParseCredentials(s) == Ok(c) {
      U32RoundTrip(s, 0);
      U32RoundTrip(s, 4);
      assert s[..8 + |c.username| + |c.password|] == s[0..4] + s[4..8] + (c.username + c.password);
    }
    if c.Valid() && At(s, 0, c.Encode()) {
      EncodedAt(s, c);
      ReadsBackU32(s, 0, |c.username|);
      ReadsBackU32(s, 4, |c.password|);
    }
  }

  lemma EncodedAt(s: seq<Byte>, c: Credentials)
    requires c.Valid() && At(s, 0, c.Encode())
    ensures At(s, 0, Be32(|c.username|)) && At(s, 4, Be32(|c.password|))
    ensures At(s, 8, c.username) && At(s, 8 + |c.username|, c.password)
  {
    hide Be32, At;
    var lengths := Be32(|c.username|) + Be32(|c.password|);
    AtSplit(s, 0, lengths, c.username + c.password);
    AtSplit(s, 0, Be32(|c.username|), Be32(|c.password|));
    AtSplit(s, 8, c.username, c.password);
  }

  /** The first length is the user name's, the second the password's. */
  lemma CredentialsExample()
    ensures ParseCredentials([0, 0, 0, 2, 0, 0, 0, 3, 0x6D, 0x65, 0x61, 0x62, 0x63]) ==
            Ok(Credentials([0x6D, 0x65], [0x61, 0x62, 0x63]))
  {
    var s := [0, 0, 0, 2, 0, 0, 0, 3, 0x6D, 0x65, 0x61, 0x62, 0x63];
    assert U32Of(s, 0) == 2 && U32Of(s, 4) == 3;
    assert s[8..10] == [0x6D, 0x65] && s[10..13] == [0x61, 0x62, 0x63];
  }

  /** A malformed request does not exist: either the credentials are there or more bytes are needed. */
  lemma CredentialsIncomplete(s: seq<Byte>)
    ensures ParseCredentials(s) == Err(Incomplete) <==>
            forall c: Credentials | c.Valid() :: !At(s, 0, c.Encode())
  {
    forall c: Credentials | c.Valid()
      ensures ParseCredentials(s) == Ok(c) <==> At(s, 0, c.Encode())
    {
      CredentialsGrammar(s, c);
    }
    if ParseCredentials(s).Ok? {
      CredentialsGrammar(s, ParseCredentials(s).value);
    }
  }

  method ParseClientUsernamePassword(cur: Cursor) returns (r: Result<Credentials>)
    requires cur.Valid() && cur.pos == 0
    modifies cur
    ensures r == ParseCredentials(cur.data)
  {
    var usernameLength :- cur.GetU32();
    var passwordLength :- cur.GetU32();
    var username :- cur.Read(usernameLength);
    var password :- cur.Read(passwordLength);
    return Ok(Credentials(username, password));
  }

  /** What the next WebSocket message can be. */
  datatype Incoming = Binary(payload: seq<Byte>) | Unexpected | Bad | Closed

  datatype Reading = Accepted(c: Credentials) | NotText | Refused | Waiting

  /** The outcome and the number of messages taken, when `buf` has been read already. */
  function Session(buf: seq<Byte>, incoming: seq<Incoming>, text: seq<Byte> -> bool): (r: (Reading, nat))
    decreases |incoming|
  {
    if incoming == [] then (Waiting, 0)
    else if !incoming[0].Binary? then (Refused, 1)
    else
      var now := buf + incoming[0].payload;
      match ParseCredentials(now)
      case Ok(c) => (if text(c.username) && text(c.password) then Accepted(c) else NotText, 1)
      case Err(_) =>
        var later := Session(now, incoming[1..], text);
        (later.0, later.1 + 1)
  }

  /** The loop: every binary message extends the buffer, which is then parsed from its start. */
  method ClientUsernamePassword(incoming: seq<Incoming>, text: seq<Byte> -> bool) returns (r: Reading, taken: nat)
    ensures (r, taken) == Session([], incoming, text)
  {
    hide ParseCredentials;
    var buf: seq<Byte> := [];
    taken := 0;
    while taken < |incoming|
      invariant taken <= |incoming|
      invariant var later := Session(buf, incoming[taken..], text);
                Session([], incoming, text) == (later.0, later.1 + taken)
    {
      var message := incoming[taken];
      assert incoming[taken..][1..] == incoming[taken + 1..];
      taken := taken + 1;
      if !message.Binary? { return Refused, taken; }
      buf := buf + message.payload;
      var cur := new Cursor(buf);
      var parsed := ParseClientUsernamePassword(cur);
      if parsed.Ok? {
        var c := parsed.value;
        return if text(c.username) && text(c.password) then Accepted(c) else NotText, taken;
      }
      ParseNeverFails(buf);
    }
    return Waiting, taken;
  }

  lemma ParseNeverFails(s: seq<Byte>)
    ensures ParseCredentials(s).Ok? || ParseCredentials(s) == Err(Incomplete)
  {
  }

  ghost predicate AllBinary(incoming: seq<Incoming>, k: nat)
    requires k <= |incoming|
  {
    forall i | 0 <= i < k :: incoming[i].Binary?
  }

  ghost function Payloads(incoming: seq<Incoming>, k: nat): (d: seq<seq<Byte>>)
    requires k <= |incoming| && AllBinary(incoming, k)
  {
    seq(k, i requires 0 <= i < k => incoming[i].payload)
  }

  /** The buffer after the first `k` messages. */
  ghost function Held(buf: seq<Byte>, incoming: seq<Incoming>, k: nat): (d: seq<Byte>)
    requires k <= |incoming| && AllBinary(incoming, k)
  {
    buf + Flatten(Payloads(incoming, k))
  }

  lemma HeldFromStart(incoming: seq<Incoming>, k: nat)
    requires k <= |incoming| && AllBinary(incoming, k)
    ensures Held([], incoming, k) == Flatten(Payloads(incoming, k))
  {
    hide Flatten;
    assert [] + Flatten(Payloads(incoming, k)) == Flatten(Payloads(incoming, k));
  }

  lemma HeldNothing(buf: seq<Byte>, incoming: seq<Incoming>)
    ensures Held(buf, incoming, 0) == buf
  {
    assert Payloads(incoming, 0) == [];
  }

  lemma HeldNext(buf: seq<Byte>, incoming: seq<Incoming>, k: nat)
    requires 0 < k <= |incoming| && incoming[0].Binary?
    ensures AllBinary(incoming, k) <==> AllBinary(incoming[1..], k - 1)
    ensures AllBinary(incoming, k) ==>
              Held(buf, incoming, k) == Held(buf + incoming[0].payload, incoming[1..], k - 1)
  {
    var rest := incoming[1..];
    assert AllBinary(incoming, k) <==> AllBinary(rest, k - 1) by {
      assert forall i | 0 < i < k :: incoming[i] == rest[i - 1];
    }
    if AllBinary(incoming, k) {
      assert Payloads(incoming, k) == [incoming[0].payload] + Payloads(rest, k - 1);
      assert buf + (incoming[0].payload + Flatten(Payloads(rest, k - 1)))
          == buf + incoming[0].payload + Flatten(Payloads(rest, k - 1));
    }
  }

  /** A strict prefix of the encoding is incomplete. */
  lemma TooShort(s: seq<Byte>, whole: seq<Byte>, c: Credentials)
    requires c.Valid() && At(whole, 0, c.Encode()) && s <= whole && |s| < |c.Encode()|
    ensures ParseCredentials(s) == Err(Incomplete)
  {
    hide ParseCredentials, Credentials.Encode, Be32;
    ParseNeverFails(s);
    if ParseCredentials(s).Ok? {
      var d := ParseCredentials(s).value;
      CredentialsGrammar(s, d);
      assert whole[..|d.Encode()|] == s[..|d.Encode()|];
      CredentialsGrammar(whole, c);
      CredentialsGrammar(whole, d);
    }
  }

  /**
   Chunking is irrelevant: the pair is returned with the first message that completes its encoding,
   whatever follows, ...
   */
  lemma CredentialsArrive(c: Credentials, incoming: seq<Incoming>, k: nat, text: seq<Byte> -> bool)
    requires c.Valid() && 0 < k <= |incoming| && AllBinary(incoming, k)
    requires At(Flatten(Payloads(incoming, k)), 0, c.Encode())
    requires |Flatten(Payloads(incoming, k - 1))| < |c.Encode()|
    ensures Session([], incoming, text) == (if text(c.username) && text(c.password) then Accepted(c) else NotText, k)
  {
    hide Session, Credentials.Encode, At, Flatten;
    HeldFromStart(incoming, k);
    HeldFromStart(incoming, k - 1);
    ArriveFrom(c, [], incoming, k, text);
  }

  lemma {:induction false} ArriveFrom(
    c: Credentials, buf: seq<Byte>, incoming: seq<Incoming>, k: nat, text: seq<Byte> -> bool)
    requires c.Valid() && 0 < k <= |incoming| && AllBinary(incoming, k)
    requires At(Held(buf, incoming, k), 0, c.Encode()) && |Held(buf, incoming, k - 1)| < |c.Encode()|
    ensures Session(buf, incoming, text) == (if text(c.username) && text(c.password) then Accepted(c) else NotText, k)
    decreases k
  {
    hide ParseCredentials, Credentials.Encode, Be32, Held, At;
    var now, rest := buf + incoming[0].payload, incoming[1..];
    HeldNext(buf, incoming, k);
    HeldNothing(now, rest);
    if k == 1 {
      CredentialsGrammar(now, c);
    } else {
      HeldNext(buf, incoming, k - 1);
      HeldStarts(now, rest, k - 1);
      HeldStarts(now, rest, k - 2);
      TooShort(now, Held(now, rest, k - 1), c);
      ArriveFrom(c, now, rest, k - 1, text);
    }
  }

  lemma HeldStarts(buf: seq<Byte>, incoming: seq<Incoming>, k: nat)
    requires k <= |incoming| && AllBinary(incoming, k)
    ensures buf <= Held(buf, incoming, k)
  {
  }

  /** ... and until then the loop keeps waiting. */
  lemma CredentialsAwaited(c: Credentials, incoming: seq<Incoming>, more: seq<Byte>, text: seq<Byte> -> bool)
    requires c.Valid() && AllBinary(incoming, |incoming|)
    requires var s := Flatten(Payloads(incoming, |incoming|)); At(s + more, 0, c.Encode()) && |s| < |c.Encode()|
    ensures Session([], incoming, text) == (Waiting, |incoming|)
  {
    hide Session, Credentials.Encode, At, Flatten;
    HeldFromStart(incoming, |incoming|);
    AwaitedFrom(c, [], incoming, more, text);
  }

  lemma {:induction false} AwaitedFrom(c: Credentials, buf: seq<Byte>, incoming: seq<Incoming>, more: seq<Byte>,
                                       text: seq<Byte> -> bool)
    requires c.Valid() && AllBinary(incoming, |incoming|)
    requires At(Held(buf, incoming, |incoming|) + more, 0, c.Encode())
    requires |Held(buf, incoming, |incoming|)| < |c.Encode()|
    ensures Session(buf, incoming, text) == (Waiting, |incoming|)
    decreases |incoming|
  {
    hide ParseCredentials, Credentials.Encode, Be32, Held, At;
    if incoming != [] {
      var now, rest := buf + incoming[0].payload, incoming[1..];
      HeldNext(buf, incoming, |incoming|);
      HeldStarts(now, rest, |rest|);
      TooShort(now, Held(now, rest, |rest|) + more, c);
      AwaitedFrom(c, now, rest, more, text);
    }
  }

  /** What an outcome says about the messages taken. */
  ghost predicate Justified(buf: seq<Byte>, incoming: seq<Incoming>, r: Reading, k: nat, text: seq<Byte> -> bool) {
    && k <= |incoming|
    && if r.Waiting? then k == |incoming| && Needs(buf, incoming, k)
       else
         && k > 0 && Needs(buf, incoming, k - 1)
         && if r.Refused? then !incoming[k - 1].Binary?
            else
              && AllBinary(incoming, k)
              && var parsed := ParseCredentials(Held(buf, incoming, k));
                 && parsed.Ok?
                 && if text(parsed.value.username) && text(parsed.value.password) then r == Accepted(parsed.value)
                    else r == NotText
  }

  ghost predicate Needs(buf: seq<Byte>, incoming: seq<Incoming>, k: nat)
    requires k <= |incoming|
  {
    AllBinary(incoming, k) && ParseCredentials(Held(buf, incoming, k)) == Err(Incomplete)
  }

  lemma JustifiedNext(buf: seq<Byte>, incoming: seq<Incoming>, r: Reading, k: nat, text: seq<Byte> -> bool)
    requires incoming != [] && incoming[0].Binary? && ParseCredentials(buf) == Err(Incomplete)
    requires Justified(buf + incoming[0].payload, incoming[1..], r, k, text)
    ensures Justified(buf, incoming, r, k + 1, text)
  {
    hide ParseCredentials, Held, AllBinary;
    HeldNext(buf, incoming, k + 1);
    if k > 0 { HeldNext(buf, incoming, k); }
    HeldNothing(buf, incoming);
  }

  /** The converse: what is returned is what the messages taken hold, and one fewer would not have done. */
  lemma {:induction false} CredentialsReceived(buf: seq<Byte>, incoming: seq<Incoming>, text: seq<Byte> -> bool)
    requires ParseCredentials(buf) == Err(Incomplete)
    ensures var (r, k) := Session(buf, incoming, text); Justified(buf, incoming, r, k, text)
    decreases |incoming|
  {
    hide ParseCredentials, Held;
    HeldNothing(buf, incoming);
    if incoming != [] && incoming[0].Binary? {
      var now := buf + incoming[0].payload;
      HeldNext(buf, incoming, 1);
      HeldNothing(now, incoming[1..]);
      ParseNeverFails(now);
      if ParseCredentials(now).Err? {
        CredentialsReceived(now, incoming[1..], text);
        var (r, k) := Session(now, incoming[1..], text);
        JustifiedNext(buf, incoming, r, k, text);
      }
    }
  }
}
