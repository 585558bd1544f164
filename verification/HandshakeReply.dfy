/** What the responses of the handshake contain, in every run. */
module HandshakeReply {
  import opened Bytes
  import opened Handshake

  /** A response is 1504 bytes and their digest. */
  lemma ResponseIs(x: Side, key: seq<byte>, hmac: Hmac)
    requires SideOk(x)
    ensures var r := Response(x, Some(key), hmac);
            |r| == 1536 && r[..1504] == x.random2[..1504] && r[1504..] == hmac(key, r[..1504])
  {
    var r := Response(x, Some(key), hmac);
    assert r[..1504] == x.random2[..1504];
  }

  /** The digest in a challenge, which is the one of everything around it, is at one of two places. */
  ghost predicate DigestAt(c: seq<byte>, key: seq<byte>, hmac: Hmac, base: nat, d: seq<byte>) {
    && |c| == 1537 && base in {8, 772}
    && var offs := 1 + base + 4 + ((c[1 + base] as int) + c[2 + base] + c[3 + base] + c[4 + base]) % 728;
       && offs + 32 <= 1537 && d == c[offs..offs + 32] && d == hmac(key, c[1..offs] + c[offs + 32..])
  }

  lemma SlotIn(c: seq<byte>, base: nat)
    requires |c| == 1537 && base in {8, 772}
    ensures 1 + Handshake.Slot(c[1..], base)
            == 1 + base + 4 + ((c[1 + base] as int) + c[2 + base] + c[3 + base] + c[4 + base]) % 728
    ensures Handshake.Slot(c[1..], base) <= 1504
  {
    SlotInside(c[1..], base);
  }

  lemma SliceBehind(c: seq<byte>, offs: nat)
    requires 1 + offs + 32 <= |c|
    ensures var p := c[1..];
            && p[offs..offs + 32] == c[1 + offs..1 + offs + 32]
            && p[..offs] == c[1..1 + offs] && p[offs + 32..] == c[1 + offs + 32..]
  {
  }

  lemma FoundAt(c: seq<byte>, key: seq<byte>, hmac: Hmac, base: nat)
    requires |c| == 1537 && base in {8, 772} && HasDigest(c[1..], key, base, hmac)
    ensures DigestAt(c, key, hmac, base, Found(c[1..], base).digest)
  {
    SlotIn(c, base);
    SliceBehind(c, Handshake.Slot(c[1..], base));
  }

  /** A challenge with a key has its digest at one of the two places. */
  lemma DigestIs(c: seq<byte>, key: seq<byte>, hmac: Hmac)
    requires |c| == 1537 && Parse(c, key, hmac).WithKey?
    ensures exists base :: DigestAt(c, key, hmac, base, Parse(c, key, hmac).digest)
  {
    if HasDigest(c[1..], key, 772, hmac) {
      FoundAt(c, key, hmac, 772);
    } else {
      FoundAt(c, key, hmac, 8);
    }
  }

  // ----- Along a run

  /** From stage `keyed` on the endpoint has the key; at `resp` it sends the reply, and what it sent is on the line. */
  ghost predicate Answers(e: Endpoint, l: Line, reply: seq<byte>, key: seq<byte>, keyed: nat, resp: nat) {
    && |reply| == PACKET
    && (e.stage >= keyed ==> e.key == Some(key))
    && (e.stage == resp ==> |e.buf| == BUFSIZE && e.buf[1..] == reply)
    && SentBy(e) <= |l.sent|
    && forall k: int {:trigger Known(k)} :: Known(k) && BUFSIZE <= k < SentBy(e) && k < TOTAL ==>
         l.sent[k] == reply[k - BUFSIZE]
  }

  ghost predicate Stages(first: nat, keyed: nat, resp: nat) {
    || (first == SERVER_RECV_CHALLENGE && keyed == SERVER_SEND_CHALLENGE && resp == SERVER_SEND_RESPONSE)
    || (first == CLIENT_SEND_CHALLENGE && keyed == CLIENT_RECV_RESPONSE && resp == CLIENT_SEND_RESPONSE)
  }

  lemma SendAnswers(e: Endpoint, l: Line, x: Side, hmac: Hmac, reply: seq<byte>, key: seq<byte>, first: nat, keyed: nat,
                    resp: nat, n: nat)
    requires Stages(first, keyed, resp) && SideOk(x) && InStage(e, first) && CanSend(e, n)
    requires Answers(e, l, reply, key, keyed, resp) && reply == Response(x, Some(key), hmac)
    requires |l.sent| == SentBy(e)
    ensures Answers(SentSome(e, x, hmac, n), LineSent(l, e, n), reply, key, keyed, resp)
  {
    SentSomeStage(e, x, hmac, n, first);
    var r, l' := SentSome(e, x, hmac, n), LineSent(l, e, n);
    forall k: int | Known(k) && BUFSIZE <= k < SentBy(r) && k < TOTAL ensures l'.sent[k] == reply[k - BUFSIZE] {
      if k >= |l.sent| {
        assert l'.sent[k] == e.buf[e.pos..e.pos + n][k - |l.sent|];
        assert e.stage == resp && e.buf[1..][k - BUFSIZE] == e.buf[k - BUFSIZE + 1];
      }
    }
    SentSomeBuffer(e, x, hmac, n, first, keyed, resp, key);
  }

  lemma SentSomeBuffer(e: Endpoint, x: Side, hmac: Hmac, n: nat, first: nat, keyed: nat, resp: nat, key: seq<byte>)
    requires Stages(first, keyed, resp) && SideOk(x) && InStage(e, first) && CanSend(e, n)
    requires e.stage >= keyed ==> e.key == Some(key)
    requires e.stage == resp ==> e.buf[1..] == Response(x, Some(key), hmac)
    ensures var r := SentSome(e, x, hmac, n);
            && (r.stage >= keyed ==> r.key == Some(key))
            && (r.stage == resp ==> |r.buf| == BUFSIZE && r.buf[1..] == Response(x, Some(key), hmac))
  {
    var s := e.buf[..1] + Response(x, Some(key), hmac);
    assert s[1..] == Response(x, Some(key), hmac);
  }

  lemma GetAnswers(e: Endpoint, l: Line, x: Side, hmac: Hmac, reply: seq<byte>, key: seq<byte>, first: nat, keyed: nat,
                   resp: nat, bytes: seq<byte>)
    requires Stages(first, keyed, resp) && SideOk(x) && InStage(e, first) && Receives(e) && bytes != []
    requires e.last + |bytes| <= BUFSIZE
    requires Answers(e, l, reply, key, keyed, resp) && reply == Response(x, Some(key), hmac)
    requires e.stage in {SERVER_RECV_CHALLENGE, CLIENT_RECV_CHALLENGE} && e.last + |bytes| == BUFSIZE ==>
               && Parse(Filled(e, bytes), x.peerKey, hmac).WithKey?
               && key == hmac(x.fullKey, Parse(Filled(e, bytes), x.peerKey, hmac).digest)
    requires e.last + |bytes| == BUFSIZE || e.stage == GotSome(e, x, hmac, bytes).stage
    ensures Answers(GotSome(e, x, hmac, bytes), l, reply, key, keyed, resp)
  {
    var r := GotSome(e, x, hmac, bytes);
    var s := Filled(e, bytes)[..1] + Response(x, Some(key), hmac);
    assert s[1..] == Response(x, Some(key), hmac);
    assert SentBy(r) == SentBy(e) || SentBy(e) >= TOTAL;
  }

  /** The digest that a side finds in the other's challenge. */
  ghost function DigestOf(peer: Side, hmac: Hmac): seq<byte>
    requires SideOk(peer)
  {
    var p := Parse(Challenge(peer, hmac), peer.partialKey, hmac);
    if p.WithKey? then p.digest else []
  }

  /** The key for the response to a peer, and the response. */
  ghost function KeyFor(x: Side, peer: Side, hmac: Hmac): seq<byte>
    requires SideOk(peer)
  {
    hmac(x.fullKey, DigestOf(peer, hmac))
  }

  ghost function Reply(x: Side, peer: Side, hmac: Hmac): seq<byte>
    requires SideOk(x) && SideOk(peer)
  {
    Response(x, Some(KeyFor(x, peer, hmac)), hmac)
  }

  /** Both sides answer. */
  ghost predicate Answered(w: World, t: Setting)
    requires SettingOk(t)
  {
    && Answers(w.server, w.down, Reply(t.server, t.client, t.hmac), KeyFor(t.server, t.client, t.hmac),
               SERVER_SEND_CHALLENGE, SERVER_SEND_RESPONSE)
    && Answers(w.client, w.up, Reply(t.client, t.server, t.hmac), KeyFor(t.client, t.server, t.hmac),
               CLIENT_RECV_RESPONSE, CLIENT_SEND_RESPONSE)
  }

  lemma ArrivedKey(from: Endpoint, to: Endpoint, x: Side, peer: Side, hmac: Hmac, l: Line, sendStage: nat,
                   getStage: nat, n: nat)
    requires SideOk(x) && SideOk(peer) && x.peerKey == peer.partialKey && Sound(to)
    requires Flow(from, to, Challenge(peer, hmac), l, sendStage, getStage) && CanGet(to, l, n)
    requires to.stage == getStage && GotBy(to) == to.last && to.last + n == BUFSIZE && SentBy(from) <= TOTAL
    ensures Parse(Filled(to, Arrives(l, n)), x.peerKey, hmac).WithKey?
    ensures KeyFor(x, peer, hmac) == hmac(x.fullKey, Parse(Filled(to, Arrives(l, n)), x.peerKey, hmac).digest)
  {
    ChallengeIsRecognised(peer, hmac);
    FilledIsChallenge(to, Challenge(peer, hmac), l, n);
    assert Unfold(0);
  }

  lemma ServerGetsAnswers(w: World, t: Setting, n: nat)
    requires SettingOk(t) && Inv(w, t) && Answered(w, t) && CanGet(w.server, w.up, n)
    ensures Answered(Next(w, t, ServerGets(n)), t)
  {
    if w.server.stage == SERVER_RECV_CHALLENGE && w.server.last + n == BUFSIZE {
      ArrivedKey(w.client, w.server, t.server, t.client, t.hmac, w.up, CLIENT_SEND_CHALLENGE, SERVER_RECV_CHALLENGE, n);
    }
    GetAnswers(w.server, w.down, t.server, t.hmac, Reply(t.server, t.client, t.hmac),
               KeyFor(t.server, t.client, t.hmac), SERVER_RECV_CHALLENGE, SERVER_SEND_CHALLENGE, SERVER_SEND_RESPONSE,
               Arrives(w.up, n));
  }

  lemma ClientGetsAnswers(w: World, t: Setting, n: nat)
    requires SettingOk(t) && Inv(w, t) && Answered(w, t) && CanGet(w.client, w.down, n)
    ensures Answered(Next(w, t, ClientGets(n)), t)
  {
    if w.client.stage == CLIENT_RECV_CHALLENGE && w.client.last + n == BUFSIZE {
      ArrivedKey(w.server, w.client, t.client, t.server, t.hmac, w.down, SERVER_SEND_CHALLENGE, CLIENT_RECV_CHALLENGE,
                 n);
    }
    GetAnswers(w.client, w.up, t.client, t.hmac, Reply(t.client, t.server, t.hmac),
               KeyFor(t.client, t.server, t.hmac), CLIENT_SEND_CHALLENGE, CLIENT_RECV_RESPONSE, CLIENT_SEND_RESPONSE,
               Arrives(w.down, n));
  }

  lemma StepAnswers(w: World, t: Setting, step: Step)
    requires SettingOk(t) && Inv(w, t) && Answered(w, t) && Enabled(w, step)
    ensures Answered(Next(w, t, step), t)
  {
    match step
    case ClientSends(n) =>
      SendAnswers(w.client, w.up, t.client, t.hmac, Reply(t.client, t.server, t.hmac),
                  KeyFor(t.client, t.server, t.hmac), CLIENT_SEND_CHALLENGE, CLIENT_RECV_RESPONSE,
                  CLIENT_SEND_RESPONSE, n);
    case ClientGets(n) => ClientGetsAnswers(w, t, n);
    case ServerSends(n) =>
      SendAnswers(w.server, w.down, t.server, t.hmac, Reply(t.server, t.client, t.hmac),
                  KeyFor(t.server, t.client, t.hmac), SERVER_RECV_CHALLENGE, SERVER_SEND_CHALLENGE,
                  SERVER_SEND_RESPONSE, n);
    case ServerGets(n) => ServerGetsAnswers(w, t, n);
    case ClientSays(bytes) =>
    case ServerSays(bytes) =>
  }

  lemma {:induction false} RunAnswers(w: World, t: Setting, steps: seq<Step>, v: World)
    requires SettingOk(t) && Inv(w, t) && Answered(w, t) && Runs(w, t, steps, v)
    ensures Inv(v, t) && Answered(v, t)
    decreases |steps|
  {
    if steps != [] {
      StepKeeps(w, t, steps[0]);
      StepAnswers(w, t, steps[0]);
      RunAnswers(Next(w, t, steps[0]), t, steps[1..], v);
    }
  }

  /**
    * In every run, what the server has sent once it is through with its response is: its challenge, and 1504 bytes with
    * their digest under the key made from the digest in the client's challenge.
    */
  lemma ServerAnswers(t: Setting, steps: seq<Step>, w: World) returns (d: seq<byte>, base: nat)
    requires SettingOk(t) && Runs(Start(t), t, steps, w) && SERVER_RECV_RESPONSE <= w.server.stage
    ensures |w.down.sent| >= 3073 && DigestAt(Challenge(t.client, t.hmac), t.client.partialKey, t.hmac, base, d)
    ensures w.down.sent[..1537] == Challenge(t.server, t.hmac)
    ensures w.down.sent[3041..3073] == t.hmac(t.hmac(t.server.fullKey, d), w.down.sent[1537..3041])
  {
    StartOk(t);
    RunAnswers(Start(t), t, steps, w);
    d, base := DigestFound(t.client, t.hmac);
    ReplyOnWire(w.server, w.client, w.down, t.server, t.client, t.hmac, SERVER_SEND_CHALLENGE, CLIENT_RECV_CHALLENGE,
                SERVER_SEND_CHALLENGE, SERVER_SEND_RESPONSE);
  }

  /** The same for the client. */
  lemma ClientAnswers(t: Setting, steps: seq<Step>, w: World) returns (d: seq<byte>, base: nat)
    requires SettingOk(t) && Runs(Start(t), t, steps, w) && w.client.stage == CLIENT_DONE
    ensures |w.up.sent| >= 3073 && DigestAt(Challenge(t.server, t.hmac), t.server.partialKey, t.hmac, base, d)
    ensures w.up.sent[..1537] == Challenge(t.client, t.hmac)
    ensures w.up.sent[3041..3073] == t.hmac(t.hmac(t.client.fullKey, d), w.up.sent[1537..3041])
  {
    StartOk(t);
    RunAnswers(Start(t), t, steps, w);
    d, base := DigestFound(t.server, t.hmac);
    ReplyOnWire(w.client, w.server, w.up, t.client, t.server, t.hmac, CLIENT_SEND_CHALLENGE, SERVER_RECV_CHALLENGE,
                CLIENT_RECV_RESPONSE, CLIENT_SEND_RESPONSE);
  }

  lemma DigestFound(peer: Side, hmac: Hmac) returns (d: seq<byte>, base: nat)
    requires SideOk(peer)
    ensures d == DigestOf(peer, hmac) && DigestAt(Challenge(peer, hmac), peer.partialKey, hmac, base, d)
  {
    ChallengeIsRecognised(peer, hmac);
    assert Unfold(0);
    DigestIs(Challenge(peer, hmac), peer.partialKey, hmac);
    d := DigestOf(peer, hmac);
    base :| DigestAt(Challenge(peer, hmac), peer.partialKey, hmac, base, d);
  }

  lemma ReplyOnWire(from: Endpoint, to: Endpoint, l: Line, x: Side, peer: Side, hmac: Hmac, sendStage: nat,
                    getStage: nat, keyed: nat, resp: nat)
    requires SideOk(x) && SideOk(peer) && SentBy(from) == TOTAL
    requires Flow(from, to, Challenge(x, hmac), l, sendStage, getStage)
    requires Answers(from, l, Reply(x, peer, hmac), KeyFor(x, peer, hmac), keyed, resp)
    ensures |l.sent| >= 3073 && l.sent[..1537] == Challenge(x, hmac)
    ensures l.sent[3041..3073] == hmac(KeyFor(x, peer, hmac), l.sent[1537..3041])
  {
    var c, r := Challenge(x, hmac), Reply(x, peer, hmac);
    forall k | 0 <= k < 1537 ensures l.sent[k] == c[k] {
      assert Known(k);
    }
    forall k | 0 <= k < 1536 ensures l.sent[1537 + k] == r[k] {
      assert Known(1537 + k);
    }
    ResponseIs(x, KeyFor(x, peer, hmac), hmac);
    assert l.sent[1537..3041] == r[..1504] && l.sent[3041..3073] == r[1504..];
  }
}
