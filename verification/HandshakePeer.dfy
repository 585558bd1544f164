/** One side of the handshake against any peer, which may be an old one or none at all: what it sends, in every run. */
module HandshakePeer {
  import opened Bytes
  import opened Handshake
  import opened HandshakeReply

  /** What a challenge is taken for: refused by its first byte, old by its version or for want of a digest. */
  lemma ParseIs(c: seq<byte>, key: seq<byte>, hmac: Hmac)
    requires |c| == 1537
    ensures Parse(c, key, hmac).Refused? <==> c[0] != 3
    ensures Parse(c, key, hmac).OldStyle? <==>
              c[0] == 3 && (c[5..9] == [0, 0, 0, 0] || forall base, d :: !DigestAt(c, key, hmac, base, d))
    ensures Parse(c, key, hmac).WithKey? ==> exists base :: DigestAt(c, key, hmac, base, Parse(c, key, hmac).digest)
  {
    assert c[1..][4..8] == c[5..9];
    forall base, d | DigestAt(c, key, hmac, base, d) ensures HasDigest(c[1..], key, base, hmac) {
      SlotIn(c, base);
      SliceBehind(c, Handshake.Slot(c[1..], base));
    }
    if Parse(c, key, hmac).WithKey? {
      DigestIs(c, key, hmac);
    }
    if HasDigest(c[1..], key, 772, hmac) {
      FoundAt(c, key, hmac, 772);
    }
    if HasDigest(c[1..], key, 8, hmac) {
      FoundAt(c, key, hmac, 8);
    }
  }

  /** A challenge starts with 3, the epoch with its heaviest byte first, and the version. */
  lemma ChallengeIs(x: Side, hmac: Hmac)
    requires SideOk(x)
    ensures var c := Challenge(x, hmac);
            |c| == 1537 && c[0] == 3 && Weigh(c[1], c[2], c[3], c[4]) == x.epoch && c[5..9] == x.version
  {
    var e := Be32(x.epoch);
    var p := e + x.version + x.random;
    var c := Challenge(x, hmac);
    BytesWeigh(x.epoch);
    WrittenIsFound(p, x.partialKey, hmac);
    assert forall i :: 0 <= i < 12 ==> c[1 + i] == p[i];
    assert forall i :: 0 <= i < 4 ==> p[i] == e[i] && p[4 + i] == x.version[i];
  }

  // ----- One side and its peer

  datatype Event = Puts(n: nat) | Takes(bytes: seq<byte>)

  /** An endpoint, all that it has taken off the wire, and all that it has put on it. */
  datatype Talk = Talk(e: Endpoint, got: seq<byte>, put: seq<byte>)

  ghost predicate Can(k: Talk, ev: Event) {
    && Sound(k.e)
    && match ev
       case Puts(n) => CanSend(k.e, n)
       case Takes(bytes) => Receives(k.e) && bytes != [] && k.e.last + |bytes| <= BUFSIZE
  }

  ghost function Goes(k: Talk, x: Side, hmac: Hmac, ev: Event): Talk
    requires SideOk(x) && Can(k, ev)
  {
    match ev
    case Puts(n) => Talk(SentSome(k.e, x, hmac, n), k.got, k.put + k.e.buf[k.e.pos..k.e.pos + n])
    case Takes(bytes) => Talk(GotSome(k.e, x, hmac, bytes), k.got + bytes, k.put)
  }

  ghost predicate Talks(k: Talk, x: Side, hmac: Hmac, events: seq<Event>, l: Talk)
    requires SideOk(x)
    decreases |events|
  {
    if events == [] then k == l else Can(k, events[0]) && Talks(Goes(k, x, hmac, events[0]), x, hmac, events[1..], l)
  }

  // ----- The server

  /** The first packet: its own challenge, or an old peer's again. */
  ghost function First(x: Side, c: seq<byte>, p: Parsed, hmac: Hmac): (s: seq<byte>)
    requires SideOk(x) && |c| == BUFSIZE
    ensures |s| == BUFSIZE
  {
    if p.OldStyle? then c else Challenge(x, hmac)
  }

  /** The second one: the response, or an old peer's challenge without its first byte. */
  ghost function Second(x: Side, c: seq<byte>, p: Parsed, hmac: Hmac): (s: seq<byte>)
    requires SideOk(x) && |c| == BUFSIZE
    ensures |s| == PACKET
  {
    if p.OldStyle? then c[1..] else Response(x, Some(hmac(x.fullKey, if p.WithKey? then p.digest else [])), hmac)
  }

  ghost predicate ServerTalks(k: Talk, x: Side, hmac: Hmac)
    requires SideOk(x)
  {
    if k.e.stage == SERVER_RECV_CHALLENGE then Waiting(k)
    else |k.got| >= BUFSIZE && ServerAnswering(k, x, k.got[..BUFSIZE], Parse(k.got[..BUFSIZE], x.peerKey, hmac), hmac)
  }

  /** Part of the challenge is there. */
  ghost predicate Waiting(k: Talk) {
    && Sound(k.e) && !k.e.failed && !k.e.oldStyle && k.e.key == None
    && k.e.last < BUFSIZE && k.e.buf[..k.e.last] == k.got && k.put == []
  }

  /** The challenge was `c`, understood as `p`. */
  ghost predicate ServerAnswering(k: Talk, x: Side, c: seq<byte>, p: Parsed, hmac: Hmac)
    requires SideOk(x) && |c| == BUFSIZE
  {
    var e, f, s := k.e, First(x, c, p, hmac), Second(x, c, p, hmac);
    && Sound(e) && (e.failed <==> p.Refused?) && SERVER_SEND_CHALLENGE <= e.stage <= SERVER_DONE
    && (e.failed ==> e.stage == SERVER_SEND_CHALLENGE && k.put == [] && |k.got| == BUFSIZE)
    && (!e.failed ==>
          && (e.oldStyle <==> p.OldStyle?) && (p.WithKey? ==> e.key == Some(hmac(x.fullKey, p.digest)))
          && (e.stage == SERVER_SEND_CHALLENGE ==>
                |k.got| == BUFSIZE && e.pos < BUFSIZE == e.last && e.buf == f && k.put == f[..e.pos])
          && (e.stage == SERVER_SEND_RESPONSE ==>
                |k.got| == BUFSIZE && 1 <= e.pos < BUFSIZE == e.last && e.buf[1..] == s && k.put == f + s[..e.pos - 1])
          && (e.stage == SERVER_RECV_RESPONSE ==>
                1 <= e.last < BUFSIZE && |k.got| == BUFSIZE + e.last - 1 && k.put == f + s)
          && (e.stage == SERVER_DONE ==> |k.got| == TOTAL && k.put == f + s))
  }

  /** More of a packet is sent. */
  lemma MoreOf(f: seq<byte>, pos: nat, n: nat)
    requires pos + n <= |f|
    ensures f[..pos] + f[pos..pos + n] == f[..pos + n] && (pos + n == |f| ==> f[..pos + n] == f)
  {
  }

  /** More of the second packet, which is in the buffer behind its first byte. */
  lemma MoreReply(f: seq<byte>, s: seq<byte>, buf: seq<byte>, pos: nat, n: nat)
    requires |buf| == |s| + 1 && buf[1..] == s && 1 <= pos && pos + n <= |buf|
    ensures f + s[..pos - 1] + buf[pos..pos + n] == f + s[..pos - 1 + n] && (pos + n == |buf| ==> s[..pos - 1 + n] == s)
  {
    assert buf[pos..pos + n] == s[pos - 1..pos - 1 + n];
    MoreOf(s, pos - 1, n);
    Assoc(f, s[..pos - 1], s[pos - 1..pos - 1 + n]);
  }

  lemma Behind(b: seq<byte>, f: seq<byte>, s: seq<byte>)
    requires |b| >= 1
    ensures (b[..1] + s)[1..] == s && f + s[..0] == f
  {
  }

  lemma ServerPutsFirst(k: Talk, x: Side, c: seq<byte>, p: Parsed, hmac: Hmac, n: nat)
    requires SideOk(x) && |c| == BUFSIZE && ServerAnswering(k, x, c, p, hmac) && CanSend(k.e, n)
    requires k.e.stage == SERVER_SEND_CHALLENGE
    ensures ServerAnswering(Goes(k, x, hmac, Puts(n)), x, c, p, hmac)
  {
    var f, s := First(x, c, p, hmac), Second(x, c, p, hmac);
    MoreOf(f, k.e.pos, n);
    Behind(k.e.buf, f, s);
    if k.e.pos + n == BUFSIZE {
      var e := k.e.(pos := BUFSIZE, stage := SERVER_SEND_RESPONSE);
      assert SentSome(k.e, x, hmac, n) == if e.oldStyle then e.(pos := 1, last := BUFSIZE)
                                          else e.(pos := 1, last := BUFSIZE, buf := e.buf[..1] + s);
    }
  }

  lemma ServerPuts(k: Talk, x: Side, c: seq<byte>, p: Parsed, hmac: Hmac, n: nat)
    requires SideOk(x) && |c| == BUFSIZE && ServerAnswering(k, x, c, p, hmac) && CanSend(k.e, n)
    ensures ServerAnswering(Goes(k, x, hmac, Puts(n)), x, c, p, hmac)
  {
    if k.e.stage == SERVER_SEND_CHALLENGE {
      ServerPutsFirst(k, x, c, p, hmac, n);
    } else {
      MoreReply(First(x, c, p, hmac), Second(x, c, p, hmac), k.e.buf, k.e.pos, n);
    }
  }

  /** The last bytes of the challenge. */
  lemma ServerUnderstands(k: Talk, x: Side, hmac: Hmac, bytes: seq<byte>, c: seq<byte>)
    requires SideOk(x) && Waiting(k) && k.e.stage == SERVER_RECV_CHALLENGE
    requires k.e.last + |bytes| == BUFSIZE && c == k.got + bytes == Filled(k.e, bytes)
    ensures ServerAnswering(Talk(GotSome(k.e, x, hmac, bytes), c, []), x, c, Parse(c, x.peerKey, hmac), hmac)
  {
    var f := k.e.(buf := c, last := BUFSIZE, stage := SERVER_SEND_CHALLENGE);
    var p := Parse(c, x.peerKey, hmac);
    var u := Understood(f, x, hmac);
    assert GotSome(k.e, x, hmac, bytes)
           == if u.oldStyle then u.(pos := 0, last := BUFSIZE)
              else u.(pos := 0, last := BUFSIZE, buf := Challenge(x, hmac));
    assert First(x, c, p, hmac)[..0] == [];
  }

  /** The bytes of the response, which are not looked at. */
  lemma ServerTakesRest(k: Talk, x: Side, c: seq<byte>, p: Parsed, hmac: Hmac, bytes: seq<byte>)
    requires SideOk(x) && |c| == BUFSIZE && ServerAnswering(k, x, c, p, hmac) && Can(k, Takes(bytes))
    ensures ServerAnswering(Goes(k, x, hmac, Takes(bytes)), x, c, p, hmac)
  {
    assert k.e.stage == SERVER_RECV_RESPONSE;
  }

  lemma ServerTakes(k: Talk, x: Side, hmac: Hmac, bytes: seq<byte>)
    requires SideOk(x) && ServerTalks(k, x, hmac) && Can(k, Takes(bytes))
    ensures ServerTalks(Goes(k, x, hmac, Takes(bytes)), x, hmac)
  {
    var got := k.got + bytes;
    if k.e.stage == SERVER_RECV_CHALLENGE {
      TakenSoFar(k.e, bytes, k.got);
      if k.e.last + |bytes| == BUFSIZE {
        ServerUnderstands(k, x, hmac, bytes, got);
        assert got[..BUFSIZE] == got;
      }
    } else {
      var c := k.got[..BUFSIZE];
      ServerTakesRest(k, x, c, Parse(c, x.peerKey, hmac), hmac, bytes);
      assert got[..BUFSIZE] == c;
    }
  }

  lemma TakenSoFar(e: Endpoint, bytes: seq<byte>, got: seq<byte>)
    requires Sound(e) && e.last + |bytes| <= BUFSIZE && e.buf[..e.last] == got
    ensures Filled(e, bytes)[..e.last + |bytes|] == got + bytes
    ensures e.last + |bytes| == BUFSIZE ==> Filled(e, bytes) == got + bytes
  {
  }

  lemma {:induction false} ServerRun(k: Talk, x: Side, hmac: Hmac, events: seq<Event>, l: Talk)
    requires SideOk(x) && ServerTalks(k, x, hmac) && Talks(k, x, hmac, events, l)
    ensures ServerTalks(l, x, hmac)
    decreases |events|
  {
    if events != [] {
      match events[0] {
        case Puts(n) =>
          ServerPuts(k, x, k.got[..BUFSIZE], Parse(k.got[..BUFSIZE], x.peerKey, hmac), hmac, n);
        case Takes(bytes) => ServerTakes(k, x, hmac, bytes);
      }
      ServerRun(Goes(k, x, hmac, events[0]), x, hmac, events[1..], l);
    }
  }

  ghost function ServerStart(): Talk {
    Talk(Endpoint(SERVER_RECV_CHALLENGE, 0, 0, seq(BUFSIZE, _ => 0), None, false, false), [], [])
  }

  /**
    * A server, whatever its peer sends: nothing is sent before 1537 bytes have come, nor if they do not start with 3.
    * An old peer, whose version is zero or whose challenge has no digest, gets its own 1537 bytes back, and 1536 of
    * them again. Any other peer gets a challenge and a response. The server is done after 1536 bytes more.
    */
  lemma ServerMeets(x: Side, hmac: Hmac, events: seq<Event>, k: Talk)
    requires SideOk(x) && Talks(ServerStart(), x, hmac, events, k)
    ensures |k.got| < 1537 ==> k.put == [] && !k.e.failed
    ensures |k.got| >= 1537 && k.got[0] != 3 ==> k.put == [] && k.e.failed
    ensures |k.got| >= 1537 && k.got[0] == 3 ==>
              && !k.e.failed
              && var c, p := k.got[..1537], Parse(k.got[..1537], x.peerKey, hmac);
              && k.put <= First(x, c, p, hmac) + Second(x, c, p, hmac)
              && (p.OldStyle? ==> k.put <= c + c[1..])
              && (k.e.stage == SERVER_DONE ==> |k.got| == 3073 && |k.put| == 3073)
  {
    assert seq(BUFSIZE, _ => 0)[..0] == [];
    ServerRun(ServerStart(), x, hmac, events, k);
    if |k.got| >= 1537 {
      var c := k.got[..1537];
      ParseIs(c, x.peerKey, hmac);
      ServerSaid(k, x, c, Parse(c, x.peerKey, hmac), hmac);
    }
  }

  lemma ServerSaid(k: Talk, x: Side, c: seq<byte>, p: Parsed, hmac: Hmac)
    requires SideOk(x) && |c| == BUFSIZE && ServerAnswering(k, x, c, p, hmac)
    ensures k.e.failed ==> k.put == []
    ensures k.put <= First(x, c, p, hmac) + Second(x, c, p, hmac)
    ensures k.e.stage == SERVER_DONE ==> |k.got| == 3073 && |k.put| == 3073
  {
  }

  // ----- The client

  /** What a client answers: a response with a digest, or random bytes to an old server. */
  ghost function ClientReply(x: Side, p: Parsed, hmac: Hmac): (s: seq<byte>)
    requires SideOk(x)
    ensures |s| == PACKET
  {
    if p.WithKey? then Response(x, Some(hmac(x.fullKey, p.digest)), hmac) else x.random2
  }

  ghost predicate ClientTalks(k: Talk, x: Side, hmac: Hmac)
    requires SideOk(x)
  {
    if k.e.stage <= CLIENT_RECV_CHALLENGE then Asking(k, Challenge(x, hmac))
    else
      && |k.got| >= BUFSIZE
      && ClientAnswering(k, x, Challenge(x, hmac), Parse(k.got[..BUFSIZE], x.peerKey, hmac), hmac)
  }

  /** The challenge `f` is on its way, or the server's is coming. */
  ghost predicate Asking(k: Talk, f: seq<byte>) {
    && Sound(k.e) && !k.e.failed && k.e.key == None && |f| == BUFSIZE && CLIENT_SEND_CHALLENGE <= k.e.stage
    && (k.e.stage == CLIENT_SEND_CHALLENGE ==>
          k.got == [] && k.e.pos < BUFSIZE == k.e.last && k.e.buf == f && k.put == f[..k.e.pos])
    && (k.e.stage == CLIENT_RECV_CHALLENGE ==>
          k.e.last < BUFSIZE && k.e.buf[..k.e.last] == k.got && k.put == f)
  }

  /** The server's challenge was understood as `p`. */
  ghost predicate ClientAnswering(k: Talk, x: Side, f: seq<byte>, p: Parsed, hmac: Hmac)
    requires SideOk(x)
  {
    var e, s := k.e, ClientReply(x, p, hmac);
    && Sound(e) && (e.failed <==> p.Refused?) && CLIENT_RECV_RESPONSE <= e.stage <= CLIENT_DONE
    && (e.failed ==> e.stage == CLIENT_RECV_RESPONSE && k.put == f && |k.got| == BUFSIZE)
    && (!e.failed ==>
          && e.key == (if p.WithKey? then Some(hmac(x.fullKey, p.digest)) else None)
          && (e.stage == CLIENT_RECV_RESPONSE ==>
                1 <= e.last < BUFSIZE && |k.got| == BUFSIZE + e.last - 1 && k.put == f)
          && (e.stage == CLIENT_SEND_RESPONSE ==>
                |k.got| == TOTAL && 1 <= e.pos < BUFSIZE == e.last && e.buf[1..] == s && k.put == f + s[..e.pos - 1])
          && (e.stage == CLIENT_DONE ==> |k.got| == TOTAL && k.put == f + s))
  }

  lemma ClientAsks(k: Talk, x: Side, hmac: Hmac, f: seq<byte>, n: nat)
    requires SideOk(x) && Asking(k, f) && k.e.stage == CLIENT_SEND_CHALLENGE && CanSend(k.e, n)
    ensures Asking(Goes(k, x, hmac, Puts(n)), f) && Goes(k, x, hmac, Puts(n)).e.stage <= CLIENT_RECV_CHALLENGE
  {
    MoreOf(f, k.e.pos, n);
    assert k.e.buf[..0] == [];
  }

  lemma ClientPuts(k: Talk, x: Side, f: seq<byte>, p: Parsed, hmac: Hmac, n: nat)
    requires SideOk(x) && ClientAnswering(k, x, f, p, hmac) && CanSend(k.e, n)
    ensures ClientAnswering(Goes(k, x, hmac, Puts(n)), x, f, p, hmac)
  {
    MoreReply(f, ClientReply(x, p, hmac), k.e.buf, k.e.pos, n);
  }

  lemma ClientUnderstands(k: Talk, x: Side, hmac: Hmac, bytes: seq<byte>, f: seq<byte>, c: seq<byte>)
    requires SideOk(x) && Asking(k, f) && k.e.stage == CLIENT_RECV_CHALLENGE
    requires k.e.last + |bytes| == BUFSIZE && c == k.got + bytes == Filled(k.e, bytes)
    ensures ClientAnswering(Talk(GotSome(k.e, x, hmac, bytes), c, k.put), x, f, Parse(c, x.peerKey, hmac), hmac)
  {
    var e := k.e.(buf := c, last := BUFSIZE, stage := CLIENT_RECV_RESPONSE);
    assert GotSome(k.e, x, hmac, bytes) == Understood(e, x, hmac).(pos := 1, last := 1);
  }

  lemma ClientTakesRest(k: Talk, x: Side, f: seq<byte>, p: Parsed, hmac: Hmac, bytes: seq<byte>)
    requires SideOk(x) && ClientAnswering(k, x, f, p, hmac) && Can(k, Takes(bytes))
    ensures ClientAnswering(Goes(k, x, hmac, Takes(bytes)), x, f, p, hmac)
  {
    Behind(Filled(k.e, bytes), f, ClientReply(x, p, hmac));
  }

  lemma ClientTakes(k: Talk, x: Side, hmac: Hmac, bytes: seq<byte>)
    requires SideOk(x) && ClientTalks(k, x, hmac) && Can(k, Takes(bytes))
    ensures ClientTalks(Goes(k, x, hmac, Takes(bytes)), x, hmac)
  {
    var got, f := k.got + bytes, Challenge(x, hmac);
    if k.e.stage <= CLIENT_RECV_CHALLENGE {
      TakenSoFar(k.e, bytes, k.got);
      if k.e.last + |bytes| == BUFSIZE {
        ClientUnderstands(k, x, hmac, bytes, f, got);
        assert got[..BUFSIZE] == got;
      }
    } else {
      var c := k.got[..BUFSIZE];
      ClientTakesRest(k, x, f, Parse(c, x.peerKey, hmac), hmac, bytes);
      assert got[..BUFSIZE] == c;
    }
  }

  lemma {:induction false} ClientRun(k: Talk, x: Side, hmac: Hmac, events: seq<Event>, l: Talk)
    requires SideOk(x) && ClientTalks(k, x, hmac) && Talks(k, x, hmac, events, l)
    ensures ClientTalks(l, x, hmac)
    decreases |events|
  {
    if events != [] {
      match events[0] {
        case Puts(n) =>
          if k.e.stage <= CLIENT_RECV_CHALLENGE {
            ClientAsks(k, x, hmac, Challenge(x, hmac), n);
          } else {
            ClientPuts(k, x, Challenge(x, hmac), Parse(k.got[..BUFSIZE], x.peerKey, hmac), hmac, n);
          }
        case Takes(bytes) => ClientTakes(k, x, hmac, bytes);
      }
      ClientRun(Goes(k, x, hmac, events[0]), x, hmac, events[1..], l);
    }
  }

  ghost function ClientStart(x: Side, hmac: Hmac): Talk
    requires SideOk(x)
  {
    Talk(Endpoint(CLIENT_SEND_CHALLENGE, 0, BUFSIZE, Challenge(x, hmac), None, false, false), [], [])
  }

  /**
    * A client, whatever its server sends: it sends its challenge, takes 1537 bytes, which must start with 3, and 1536
    * more, and only then answers; with a digest if it found one, and else with random bytes.
    */
  lemma ClientMeets(x: Side, hmac: Hmac, events: seq<Event>, k: Talk)
    requires SideOk(x) && Talks(ClientStart(x, hmac), x, hmac, events, k)
    ensures |k.got| < 3073 ==> k.put <= Challenge(x, hmac)
    ensures |k.got| >= 1537 && k.got[0] != 3 ==> k.put == Challenge(x, hmac) && k.e.failed
    ensures |k.got| >= 1537 && k.got[0] == 3 ==>
              && !k.e.failed
              && k.put <= Challenge(x, hmac) + ClientReply(x, Parse(k.got[..1537], x.peerKey, hmac), hmac)
              && (k.e.stage == CLIENT_DONE ==> |k.got| == 3073 && |k.put| == 3073)
  {
    assert Challenge(x, hmac)[..0] == [];
    ClientRun(ClientStart(x, hmac), x, hmac, events, k);
    if |k.got| >= 1537 {
      ParseIs(k.got[..1537], x.peerKey, hmac);
    }
  }
}
