/**
  * ngx_rtmp_handshake.c (section 5.2 of the RTMP Specification): a client and a server that exchange a challenge and
  * a response each. The keyed digest is a parameter; the bytes may arrive in pieces of any sizes.
  */
module Handshake {
  import opened Bytes

  const KEYLEN: nat := 32
  const PACKET: nat := 1536
  const BUFSIZE: nat := 1537

  type Digest = d: seq<byte> | |d| == KEYLEN witness seq(KEYLEN, _ => 0)

  type Hmac = (seq<byte>, seq<byte>) -> Digest

  // ----- Digests

  /** Where the digest of a packet is, by the four bytes at `base`. */
  function Slot(p: seq<byte>, base: nat): nat
    requires base + 4 <= |p|
  {
    ((p[base] as int) + p[base + 1] + p[base + 2] + p[base + 3]) % 728 + base + 4
  }

  /** The packet without the digest slot. */
  function Around(p: seq<byte>, offs: nat): seq<byte>
    requires offs + KEYLEN <= |p|
  {
    p[..offs] + p[offs + KEYLEN..]
  }

  /** Every digest slot lies inside the packet. */
  lemma SlotInside(p: seq<byte>, base: nat)
    requires |p| == PACKET && base <= 772
    ensures base + 4 <= Slot(p, base) <= PACKET - KEYLEN
  {
  }

  /** ngx_rtmp_find_digest. */
  predicate HasDigest(p: seq<byte>, key: seq<byte>, base: nat, hmac: Hmac)
    requires |p| == PACKET && base <= 772
  {
    SlotInside(p, base);
    var offs := Slot(p, base);
    hmac(key, Around(p, offs)) == p[offs..offs + KEYLEN]
  }

  /** ngx_rtmp_write_digest, which looks at bytes 8 to 11. */
  function WithDigest(p: seq<byte>, key: seq<byte>, hmac: Hmac): (q: seq<byte>)
    requires |p| == PACKET
    ensures |q| == PACKET
  {
    SlotInside(p, 8);
    var offs := Slot(p, 8);
    p[..offs] + hmac(key, Around(p, offs)) + p[offs + KEYLEN..]
  }

  /** A digest that was written is found, and the bytes before byte 12 are as they were. */
  lemma WrittenIsFound(p: seq<byte>, key: seq<byte>, hmac: Hmac)
    requires |p| == PACKET
    ensures HasDigest(WithDigest(p, key, hmac), key, 8, hmac)
    ensures forall i :: 0 <= i < 12 ==> WithDigest(p, key, hmac)[i] == p[i]
  {
    SlotInside(p, 8);
    var offs := Slot(p, 8);
    var d := hmac(key, Around(p, offs));
    var q := WithDigest(p, key, hmac);
    assert q == p[..offs] + d + p[offs + KEYLEN..];
    assert forall i :: 0 <= i < 12 ==> q[i] == p[i];
    assert Slot(q, 8) == offs;
    assert Around(q, offs) == Around(p, offs);
    assert q[offs..offs + KEYLEN] == d;
  }

  // ----- Packets

  /** What an endpoint puts into its packets. */
  datatype Side = Side(epoch: uint32, version: seq<byte>, partialKey: seq<byte>, fullKey: seq<byte>, peerKey: seq<byte>,
                       random: seq<byte>, random2: seq<byte>)

  ghost predicate SideOk(x: Side) {
    |x.version| == 4 && x.version != [0, 0, 0, 0] && |x.random| == PACKET - 8 && |x.random2| == PACKET
  }

  /** ngx_rtmp_handshake_create_challenge. */
  ghost function Challenge(x: Side, hmac: Hmac): (c: seq<byte>)
    requires SideOk(x)
    ensures |c| == BUFSIZE
  {
    [3] + WithDigest(Be32(x.epoch) + x.version + x.random, x.partialKey, hmac)
  }

  /** How a challenge is understood. */
  datatype Parsed = Refused | OldStyle | WithKey(digest: Digest)

  /** ngx_rtmp_handshake_parse_challenge: the digest is looked for in two places. */
  ghost function Parse(c: seq<byte>, key: seq<byte>, hmac: Hmac): Parsed
    requires |c| == BUFSIZE
  {
    var p := c[1..];
    if c[0] != 3 then Refused
    else if p[4..8] == [0, 0, 0, 0] then OldStyle
    else if HasDigest(p, key, 772, hmac) then Found(p, 772)
    else if HasDigest(p, key, 8, hmac) then Found(p, 8)
    else OldStyle
  }

  ghost function Found(p: seq<byte>, base: nat): Parsed
    requires |p| == PACKET && base <= 772
  {
    SlotInside(p, base);
    WithKey(p[Slot(p, base)..Slot(p, base) + KEYLEN])
  }

  lemma VersionKept(epoch: seq<byte>, version: seq<byte>, random: seq<byte>, q: seq<byte>)
    requires |epoch| == 4 && |version| == 4 && |random| >= 4 && |q| >= 12
    requires forall i :: 0 <= i < 12 ==> q[i] == (epoch + version + random)[i]
    ensures q[4..8] == version
  {
  }

  ghost predicate Recognised(c: seq<byte>, key: seq<byte>, hmac: Hmac) {
    forall k: int {:trigger Unfold(k)} :: Unfold(k) ==> |c| == BUFSIZE && Parse(c, key, hmac).WithKey?
  }

  /** A created challenge is always recognised as digest-style by a peer that knows the key. */
  lemma ChallengeIsRecognised(x: Side, hmac: Hmac)
    requires SideOk(x)
    ensures Recognised(Challenge(x, hmac), x.partialKey, hmac)
  {
    var p := Be32(x.epoch) + x.version + x.random;
    var q := WithDigest(p, x.partialKey, hmac);
    WrittenIsFound(p, x.partialKey, hmac);
    var c := Challenge(x, hmac);
    assert c[1..] == q;
    VersionKept(Be32(x.epoch), x.version, x.random, q);
  }

  /** ngx_rtmp_handshake_create_response: random bytes and, if there is a key, a digest at the end. */
  ghost function Response(x: Side, key: Option<seq<byte>>, hmac: Hmac): (r: seq<byte>)
    requires SideOk(x)
    ensures |r| == PACKET
  {
    if key.None? then x.random2
    else x.random2[..PACKET - KEYLEN] + hmac(key.value, x.random2[..PACKET - KEYLEN])
  }

  // ----- One endpoint

  const SERVER_RECV_CHALLENGE: nat := 1
  const SERVER_SEND_CHALLENGE: nat := 2
  const SERVER_SEND_RESPONSE: nat := 3
  const SERVER_RECV_RESPONSE: nat := 4
  const SERVER_DONE: nat := 5
  const CLIENT_SEND_CHALLENGE: nat := 6
  const CLIENT_RECV_CHALLENGE: nat := 7
  const CLIENT_RECV_RESPONSE: nat := 8
  const CLIENT_SEND_RESPONSE: nat := 9
  const CLIENT_DONE: nat := 10

  /** A session's handshake fields: the stage, and the buffer with its positions. */
  datatype Endpoint = Endpoint(stage: nat, pos: nat, last: nat, buf: seq<byte>, key: Option<seq<byte>>, oldStyle: bool,
                               failed: bool)

  ghost predicate Sound(e: Endpoint) {
    e.pos <= e.last <= |e.buf| == BUFSIZE
  }

  predicate Sends(e: Endpoint) {
    !e.failed && e.stage in {SERVER_SEND_CHALLENGE, SERVER_SEND_RESPONSE, CLIENT_SEND_CHALLENGE, CLIENT_SEND_RESPONSE}
  }

  predicate Receives(e: Endpoint) {
    !e.failed && e.stage in {SERVER_RECV_CHALLENGE, SERVER_RECV_RESPONSE, CLIENT_RECV_CHALLENGE, CLIENT_RECV_RESPONSE}
  }

  /** A challenge has arrived in the buffer. */
  ghost function Understood(e: Endpoint, x: Side, hmac: Hmac): Endpoint
    requires Sound(e)
  {
    match Parse(e.buf, x.peerKey, hmac)
    case Refused => e.(failed := true)
    case OldStyle => e.(oldStyle := true)
    case WithKey(d) => e.(key := Some(hmac(x.fullKey, d)))
  }

  /** The buffer has been sent or filled: the next stage. */
  ghost function Advanced(e0: Endpoint, x: Side, hmac: Hmac): (r: Endpoint)
    requires Sound(e0) && SideOk(x)
    ensures Sound(r)
  {
    var e := e0.(stage := e0.stage + 1);
    if e.stage == SERVER_SEND_CHALLENGE then
      var u := Understood(e, x, hmac);
      if u.oldStyle then u.(pos := 0, last := BUFSIZE) else u.(pos := 0, last := BUFSIZE, buf := Challenge(x, hmac))
    else if e.stage == SERVER_SEND_RESPONSE && e.oldStyle then e.(pos := 1, last := BUFSIZE)
    else if e.stage == SERVER_SEND_RESPONSE || e.stage == CLIENT_SEND_RESPONSE then
      e.(pos := 1, last := BUFSIZE, buf := e.buf[..1] + Response(x, e.key, hmac))
    else if e.stage == SERVER_RECV_RESPONSE then e.(pos := 1, last := 1)
    else if e.stage == CLIENT_RECV_CHALLENGE then e.(pos := 0, last := 0)
    else if e.stage == CLIENT_RECV_RESPONSE then Understood(e, x, hmac).(pos := 1, last := 1)
    else e
  }

  /** ngx_rtmp_handshake_send after the socket took `n` bytes. */
  ghost function SentSome(e: Endpoint, x: Side, hmac: Hmac, n: nat): (r: Endpoint)
    requires Sound(e) && SideOk(x) && e.pos + n <= e.last
    ensures Sound(r)
  {
    var f := e.(pos := e.pos + n);
    if f.pos == f.last then Advanced(f, x, hmac) else f
  }

  /** ngx_rtmp_handshake_recv after the socket gave some bytes; never more than the buffer has room for. */
  ghost function GotSome(e: Endpoint, x: Side, hmac: Hmac, bytes: seq<byte>): (r: Endpoint)
    requires Sound(e) && SideOk(x) && e.last + |bytes| <= BUFSIZE
    ensures Sound(r)
  {
    var f := e.(buf := e.buf[..e.last] + bytes + e.buf[e.last + |bytes|..], last := e.last + |bytes|);
    if f.last == BUFSIZE then Advanced(f, x, hmac) else f
  }

  // ----- Two endpoints and what is under way between them

  /**
    * One direction: all bytes put on the wire, how many of them the handshake has taken off it, and what was said after
    * it.
    */
  datatype Line = Line(sent: seq<byte>, at: nat, said: seq<byte>)

  datatype World = World(client: Endpoint, server: Endpoint, up: Line, down: Line)

  /** Both sides, each knowing the other's key. */
  datatype Setting = Setting(client: Side, server: Side, hmac: Hmac)

  ghost predicate SettingOk(t: Setting) {
    && SideOk(t.client) && SideOk(t.server)
    && t.client.peerKey == t.server.partialKey && t.server.peerKey == t.client.partialKey
  }

  /**
    * One call of a socket function: some bytes leave, or some of those under way arrive. A side that is done goes on
    * with its chunk stream, whatever the other side is doing.
    */
  datatype Step =
    | ClientSends(n: nat) | ClientGets(n: nat) | ClientSays(bytes: seq<byte>)
    | ServerSends(n: nat) | ServerGets(n: nat) | ServerSays(bytes: seq<byte>)

  predicate Says(step: Step) {
    step.ClientSays? || step.ServerSays?
  }

  ghost predicate CanSend(e: Endpoint, n: nat) {
    Sends(e) && 0 < n && e.pos + n <= e.last
  }

  ghost predicate CanGet(e: Endpoint, l: Line, n: nat) {
    Receives(e) && 0 < n && e.last + n <= BUFSIZE && l.at + n <= |l.sent|
  }

  ghost predicate Enabled(w: World, step: Step) {
    && Sound(w.client) && Sound(w.server)
    && match step
       case ClientSends(n) => CanSend(w.client, n)
       case ClientGets(n) => CanGet(w.client, w.down, n)
       case ClientSays(bytes) => w.client.stage == CLIENT_DONE && !w.client.failed
       case ServerSends(n) => CanSend(w.server, n)
       case ServerGets(n) => CanGet(w.server, w.up, n)
       case ServerSays(bytes) => w.server.stage == SERVER_DONE && !w.server.failed
  }

  ghost function LineSent(l: Line, e: Endpoint, n: nat): Line
    requires Sound(e) && e.pos + n <= e.last
  {
    l.(sent := l.sent + e.buf[e.pos..e.pos + n])
  }

  ghost function LineSaid(l: Line, bytes: seq<byte>): Line {
    l.(sent := l.sent + bytes, said := l.said + bytes)
  }

  ghost function Arrives(l: Line, n: nat): seq<byte>
    requires l.at + n <= |l.sent|
  {
    l.sent[l.at..l.at + n]
  }

  ghost function Next(w: World, t: Setting, step: Step): World
    requires SettingOk(t) && Enabled(w, step)
  {
    match step
    case ClientSends(n) => w.(client := SentSome(w.client, t.client, t.hmac, n), up := LineSent(w.up, w.client, n))
    case ClientGets(n) =>
      w.(client := GotSome(w.client, t.client, t.hmac, Arrives(w.down, n)), down := w.down.(at := w.down.at + n))
    case ClientSays(bytes) => w.(up := LineSaid(w.up, bytes))
    case ServerSends(n) => w.(server := SentSome(w.server, t.server, t.hmac, n), down := LineSent(w.down, w.server, n))
    case ServerGets(n) =>
      w.(server := GotSome(w.server, t.server, t.hmac, Arrives(w.up, n)), up := w.up.(at := w.up.at + n))
    case ServerSays(bytes) => w.(down := LineSaid(w.down, bytes))
  }

  ghost predicate Runs(w: World, t: Setting, steps: seq<Step>, v: World)
    requires SettingOk(t)
    decreases |steps|
  {
    if steps == [] then w == v else Enabled(w, steps[0]) && Runs(Next(w, t, steps[0]), t, steps[1..], v)
  }

  ghost function Start(t: Setting): World
    requires SettingOk(t)
  {
    var empty := seq(BUFSIZE, _ => 0);
    World(Endpoint(CLIENT_SEND_CHALLENGE, 0, BUFSIZE, Challenge(t.client, t.hmac), None, false, false),
          Endpoint(SERVER_RECV_CHALLENGE, 0, 0, empty, None, false, false), Line([], 0, []), Line([], 0, []))
  }

  // ----- The invariant

  const TOTAL: nat := BUFSIZE + PACKET

  /** How many bytes an endpoint has sent, by its stage. */
  function SentBy(e: Endpoint): int {
    if e.stage == SERVER_RECV_CHALLENGE then 0
    else if e.stage == SERVER_SEND_CHALLENGE || e.stage == CLIENT_SEND_CHALLENGE then e.pos
    else if e.stage == CLIENT_RECV_CHALLENGE || e.stage == CLIENT_RECV_RESPONSE then BUFSIZE
    else if e.stage == SERVER_SEND_RESPONSE || e.stage == CLIENT_SEND_RESPONSE then BUFSIZE + e.pos - 1
    else TOTAL
  }

  function GotBy(e: Endpoint): int {
    if e.stage == CLIENT_SEND_CHALLENGE then 0
    else if e.stage == SERVER_RECV_CHALLENGE || e.stage == CLIENT_RECV_CHALLENGE then e.last
    else if e.stage == SERVER_SEND_CHALLENGE || e.stage == SERVER_SEND_RESPONSE then BUFSIZE
    else if e.stage == SERVER_RECV_RESPONSE || e.stage == CLIENT_RECV_RESPONSE then BUFSIZE + e.last - 1
    else TOTAL
  }

  /** An endpoint in the middle of its stage. */
  ghost predicate InStage(e: Endpoint, first: nat) {
    && Sound(e) && !e.failed && !e.oldStyle && first <= e.stage <= first + 4
    && (Sends(e) ==> e.pos < e.last == BUFSIZE)
    && (Receives(e) ==> e.last < BUFSIZE)
    && (e.stage in {SERVER_SEND_RESPONSE, CLIENT_SEND_RESPONSE} ==> e.pos >= 1)
    && (e.stage in {SERVER_RECV_RESPONSE, CLIENT_RECV_RESPONSE} ==> e.last >= 1)
  }

  /** As far as both go, the bytes are the same. */
  ghost predicate Agree(a: seq<byte>, b: seq<byte>, n: nat) {
    n <= |a| && n <= |b| && forall k: int {:trigger Known(k)} :: Known(k) && 0 <= k < n ==> a[k] == b[k]
  }

  /**
    * One direction: the handshake bytes come first and begin with the challenge, the receiver's buffer holds what
    * arrived of it, and what was said after the handshake is behind.
    */
  ghost predicate Flow(from: Endpoint, to: Endpoint, challenge: seq<byte>, l: Line, sendStage: nat, getStage: nat) {
    && |challenge| == BUFSIZE && l.at == GotBy(to) <= |l.sent|
    && 0 <= SentBy(from) && |l.sent| == SentBy(from) + |l.said| && l.sent[SentBy(from)..] == l.said
    && (l.said != [] ==> SentBy(from) == TOTAL)
    && (from.stage == sendStage ==> from.buf == challenge)
    && Agree(l.sent, challenge, Min(SentBy(from), BUFSIZE))
    && (to.stage == getStage ==> Agree(to.buf, l.sent, to.last))
  }

  ghost predicate Inv(w: World, t: Setting)
    requires SettingOk(t)
  {
    && InStage(w.client, CLIENT_SEND_CHALLENGE) && InStage(w.server, SERVER_RECV_CHALLENGE)
    && UpFlow(w.client, w.server, t, w.up) && DownFlow(w.server, w.client, t, w.down)
  }

  ghost predicate UpFlow(client: Endpoint, server: Endpoint, t: Setting, l: Line)
    requires SettingOk(t)
  {
    Flow(client, server, Challenge(t.client, t.hmac), l, CLIENT_SEND_CHALLENGE, SERVER_RECV_CHALLENGE)
  }

  ghost predicate DownFlow(server: Endpoint, client: Endpoint, t: Setting, l: Line)
    requires SettingOk(t)
  {
    Flow(server, client, Challenge(t.server, t.hmac), l, SERVER_SEND_CHALLENGE, CLIENT_RECV_CHALLENGE)
  }

  // ----- Every step keeps it

  lemma SentSomeStage(e: Endpoint, x: Side, hmac: Hmac, n: nat, first: nat)
    requires InStage(e, first) && first in {SERVER_RECV_CHALLENGE, CLIENT_SEND_CHALLENGE} && SideOk(x) && CanSend(e, n)
    ensures var r := SentSome(e, x, hmac, n);
            && InStage(r, first) && SentBy(r) == SentBy(e) + n && GotBy(r) == GotBy(e)
            && (r.stage in {CLIENT_SEND_CHALLENGE, SERVER_SEND_CHALLENGE} ==> r.stage == e.stage && r.buf == e.buf)
            && (r.stage == CLIENT_RECV_CHALLENGE ==> r.last == 0) && r.stage != SERVER_RECV_CHALLENGE
  {
  }

  ghost function Filled(e: Endpoint, bytes: seq<byte>): (b: seq<byte>)
    requires Sound(e) && e.last + |bytes| <= BUFSIZE
    ensures |b| == BUFSIZE
  {
    e.buf[..e.last] + bytes + e.buf[e.last + |bytes|..]
  }

  lemma GotSomeStage(e: Endpoint, x: Side, hmac: Hmac, bytes: seq<byte>, first: nat)
    requires InStage(e, first) && first in {SERVER_RECV_CHALLENGE, CLIENT_SEND_CHALLENGE} && SideOk(x)
    requires Receives(e) && bytes != [] && e.last + |bytes| <= BUFSIZE
    requires e.stage in {SERVER_RECV_CHALLENGE, CLIENT_RECV_CHALLENGE} && e.last + |bytes| == BUFSIZE ==>
               Recognised(Filled(e, bytes), x.peerKey, hmac)
    ensures var r := GotSome(e, x, hmac, bytes);
            && InStage(r, first) && GotBy(r) == GotBy(e) + |bytes| && SentBy(r) == SentBy(e)
            && (r.stage == SERVER_SEND_CHALLENGE ==> r.buf == Challenge(x, hmac)) && r.stage != CLIENT_SEND_CHALLENGE
            && (r.stage in {SERVER_RECV_CHALLENGE, CLIENT_RECV_CHALLENGE} ==>
                  r.stage == e.stage && r.last == e.last + |bytes| && r.buf == Filled(e, bytes))
  {
    assert Unfold(0);
  }

  /** The sender's side of a direction. */
  lemma FlowSent(from: Endpoint, to: Endpoint, c: seq<byte>, l: Line, sendStage: nat, getStage: nat, from': Endpoint,
                 n: nat)
    requires Flow(from, to, c, l, sendStage, getStage) && Sound(from) && CanSend(from, n) && Sound(to)
    requires SentBy(from') == SentBy(from) + n <= TOTAL
    requires from'.stage == sendStage ==> from'.buf == from.buf && from.stage == sendStage
    requires from.stage == sendStage <==> SentBy(from) < BUFSIZE
    requires from.stage == sendStage ==> SentBy(from) == from.pos
    ensures Flow(from', to, c, LineSent(l, from, n), sendStage, getStage)
  {
    var sent' := LineSent(l, from, n).sent;
    forall k: int | Known(k) && 0 <= k < Min(|sent'|, BUFSIZE) ensures sent'[k] == c[k] {
    }
  }

  /** A side that is done goes on: the bytes are behind the handshake. */
  lemma FlowSaid(from: Endpoint, to: Endpoint, c: seq<byte>, l: Line, sendStage: nat, getStage: nat, bytes: seq<byte>)
    requires Flow(from, to, c, l, sendStage, getStage) && SentBy(from) == TOTAL
    ensures Flow(from, to, c, LineSaid(l, bytes), sendStage, getStage)
  {
    assert (l.sent + bytes)[TOTAL..] == l.sent[TOTAL..] + bytes;
  }

  /** The receiver's side. */
  lemma FlowGot(from: Endpoint, to: Endpoint, c: seq<byte>, l: Line, sendStage: nat, getStage: nat, to': Endpoint,
                n: nat)
    requires Flow(from, to, c, l, sendStage, getStage) && Sound(to) && 0 < n && l.at + n <= |l.sent|
             && to.last + n <= BUFSIZE
    requires GotBy(to') == GotBy(to) + n && (to.stage == getStage ==> GotBy(to) == to.last)
    requires to'.stage == getStage ==>
               to.stage == getStage && to'.last == to.last + n && to'.buf == Filled(to, Arrives(l, n))
    ensures Flow(from, to', c, l.(at := l.at + n), sendStage, getStage)
  {
    if to.stage == getStage {
      var f := Filled(to, Arrives(l, n));
      forall k: int | Known(k) && 0 <= k < to.last + n ensures f[k] == l.sent[k] {
      }
    }
  }

  lemma ClientSendKeeps(w: World, t: Setting, n: nat)
    requires SettingOk(t) && Inv(w, t) && CanSend(w.client, n)
    ensures var v := Next(w, t, ClientSends(n)); Inv(v, t) && Left(v) < Left(w)
  {
    SentSomeStage(w.client, t.client, t.hmac, n, CLIENT_SEND_CHALLENGE);
    FlowSent(w.client, w.server, Challenge(t.client, t.hmac), w.up, CLIENT_SEND_CHALLENGE, SERVER_RECV_CHALLENGE,
             SentSome(w.client, t.client, t.hmac, n), n);
  }

  lemma ServerSendKeeps(w: World, t: Setting, n: nat)
    requires SettingOk(t) && Inv(w, t) && CanSend(w.server, n)
    ensures var v := Next(w, t, ServerSends(n)); Inv(v, t) && Left(v) < Left(w)
  {
    SentSomeStage(w.server, t.server, t.hmac, n, SERVER_RECV_CHALLENGE);
    FlowSent(w.server, w.client, Challenge(t.server, t.hmac), w.down, SERVER_SEND_CHALLENGE, CLIENT_RECV_CHALLENGE,
             SentSome(w.server, t.server, t.hmac, n), n);
  }

  /** The bytes that complete a challenge complete it as it was sent. */
  lemma FilledIsChallenge(to: Endpoint, c: seq<byte>, l: Line, n: nat)
    requires Sound(to) && l.at == to.last && l.at + n <= |l.sent| && to.last + n == BUFSIZE == |c|
    requires Agree(to.buf, l.sent, to.last) && Agree(l.sent, c, BUFSIZE)
    ensures Filled(to, Arrives(l, n)) == c
  {
    var f := Filled(to, Arrives(l, n));
    forall k | 0 <= k < BUFSIZE ensures f[k] == c[k] {
      assert Known(k);
    }
  }

  /** A receive on either side: the challenge that arrives is recognised. */
  lemma GetKeeps(from: Endpoint, to: Endpoint, x: Side, peer: Side, hmac: Hmac, l: Line, sendStage: nat, getStage: nat,
                 first: nat, n: nat)
    requires SideOk(x) && SideOk(peer) && x.peerKey == peer.partialKey
    requires Flow(from, to, Challenge(peer, hmac), l, sendStage, getStage) && CanGet(to, l, n) && InStage(to, first)
    requires first in {SERVER_RECV_CHALLENGE, CLIENT_SEND_CHALLENGE}
    requires getStage == if first == SERVER_RECV_CHALLENGE then SERVER_RECV_CHALLENGE else CLIENT_RECV_CHALLENGE
    ensures var r := GotSome(to, x, hmac, Arrives(l, n));
            && InStage(r, first) && GotBy(r) == GotBy(to) + n && SentBy(r) == SentBy(to)
            && (r.stage == SERVER_SEND_CHALLENGE ==> r.buf == Challenge(x, hmac)) && r.stage != CLIENT_SEND_CHALLENGE
            && Flow(from, r, Challenge(peer, hmac), l.(at := l.at + n), sendStage, getStage)
  {
    var bytes, c := Arrives(l, n), Challenge(peer, hmac);
    if to.stage == getStage && to.last + n == BUFSIZE {
      ChallengeIsRecognised(peer, hmac);
      FilledIsChallenge(to, c, l, n);
    }
    GotSomeStage(to, x, hmac, bytes, first);
    FlowGot(from, to, c, l, sendStage, getStage, GotSome(to, x, hmac, bytes), n);
  }

  lemma ClientGetKeeps(w: World, t: Setting, n: nat)
    requires SettingOk(t) && Inv(w, t) && CanGet(w.client, w.down, n)
    ensures var v := Next(w, t, ClientGets(n)); Inv(v, t) && Left(v) < Left(w)
  {
    GetKeeps(w.server, w.client, t.client, t.server, t.hmac, w.down, SERVER_SEND_CHALLENGE, CLIENT_RECV_CHALLENGE,
             CLIENT_SEND_CHALLENGE, n);
  }

  lemma ServerGetKeeps(w: World, t: Setting, n: nat)
    requires SettingOk(t) && Inv(w, t) && CanGet(w.server, w.up, n)
    ensures var v := Next(w, t, ServerGets(n)); Inv(v, t) && Left(v) < Left(w)
  {
    GetKeeps(w.client, w.server, t.server, t.client, t.hmac, w.up, CLIENT_SEND_CHALLENGE, SERVER_RECV_CHALLENGE,
             SERVER_RECV_CHALLENGE, n);
  }

  lemma SayKeeps(w: World, t: Setting, step: Step)
    requires SettingOk(t) && Inv(w, t) && Enabled(w, step) && Says(step)
    ensures var v := Next(w, t, step); Inv(v, t) && Left(v) == Left(w)
  {
    if step.ClientSays? {
      FlowSaid(w.client, w.server, Challenge(t.client, t.hmac), w.up, CLIENT_SEND_CHALLENGE, SERVER_RECV_CHALLENGE,
               step.bytes);
    } else {
      FlowSaid(w.server, w.client, Challenge(t.server, t.hmac), w.down, SERVER_SEND_CHALLENGE, CLIENT_RECV_CHALLENGE,
               step.bytes);
    }
  }

  /** How many bytes of the handshake are still to be sent or received. */
  ghost function Left(w: World): int {
    4 * TOTAL - SentBy(w.client) - SentBy(w.server) - GotBy(w.client) - GotBy(w.server)
  }

  lemma StepKeeps(w: World, t: Setting, step: Step)
    requires SettingOk(t) && Inv(w, t) && Enabled(w, step)
    ensures Inv(Next(w, t, step), t)
    ensures if Says(step) then Left(Next(w, t, step)) == Left(w) else Left(Next(w, t, step)) < Left(w)
  {
    match step
    case ClientSends(n) => ClientSendKeeps(w, t, n);
    case ClientGets(n) => ClientGetKeeps(w, t, n);
    case ServerSends(n) => ServerSendKeeps(w, t, n);
    case ServerGets(n) => ServerGetKeeps(w, t, n);
    case ClientSays(bytes) => SayKeeps(w, t, step);
    case ServerSays(bytes) => SayKeeps(w, t, step);
  }

  lemma StartOk(t: Setting)
    requires SettingOk(t)
    ensures Inv(Start(t), t)
  {
    var w := Start(t);
    FlowStart(w.client, w.server, Challenge(t.client, t.hmac), CLIENT_SEND_CHALLENGE, SERVER_RECV_CHALLENGE);
    FlowStart(w.server, w.client, Challenge(t.server, t.hmac), SERVER_SEND_CHALLENGE, CLIENT_RECV_CHALLENGE);
  }

  lemma FlowStart(from: Endpoint, to: Endpoint, c: seq<byte>, sendStage: nat, getStage: nat)
    requires |c| == BUFSIZE && SentBy(from) == GotBy(to) == 0
    requires (from.stage == sendStage ==> from.buf == c) && (to.stage == getStage ==> to.last == 0)
    ensures Flow(from, to, c, Line([], 0, []), sendStage, getStage)
  {
  }

  /** The steps of the handshake in a run. */
  ghost function Exchanges(steps: seq<Step>): nat {
    if steps == [] then 0 else (if Says(steps[0]) then 0 else 1) + Exchanges(steps[1..])
  }

  lemma {:induction false} RunKeeps(w: World, t: Setting, steps: seq<Step>, v: World)
    requires SettingOk(t) && Inv(w, t) && Runs(w, t, steps, v)
    ensures Inv(v, t) && Exchanges(steps) <= Left(w) - Left(v)
    decreases |steps|
  {
    if steps != [] {
      StepKeeps(w, t, steps[0]);
      RunKeeps(Next(w, t, steps[0]), t, steps[1..], v);
    }
  }

  /**
    * In every reachable state, neither side has failed or taken the other for an old one, and neither has read a byte
    * too many: a side that is done has taken 1537 + 1536 bytes off the wire, and what the other side said after its
    * own handshake is all there, in front of its chunk receiver.
    */
  lemma HandshakeIsSafe(t: Setting, steps: seq<Step>, w: World)
    requires SettingOk(t) && Runs(Start(t), t, steps, w)
    ensures !w.client.failed && !w.server.failed && !w.client.oldStyle && !w.server.oldStyle
    ensures w.up.at <= TOTAL && w.down.at <= TOTAL && Exchanges(steps) <= 4 * TOTAL
    ensures w.client.stage == CLIENT_DONE ==>
              w.down.at == TOTAL <= |w.down.sent| && w.down.sent[w.down.at..] == w.down.said
                  && |w.up.sent| == TOTAL + |w.up.said|
    ensures w.server.stage == SERVER_DONE ==>
              w.up.at == TOTAL <= |w.up.sent| && w.up.sent[w.up.at..] == w.up.said
                  && |w.down.sent| == TOTAL + |w.down.said|
  {
    StartOk(t);
    RunKeeps(Start(t), t, steps, w);
    DoneTook(w.server, w.client, Challenge(t.server, t.hmac), w.down, SERVER_SEND_CHALLENGE, CLIENT_RECV_CHALLENGE);
    DoneTook(w.client, w.server, Challenge(t.client, t.hmac), w.up, CLIENT_SEND_CHALLENGE, SERVER_RECV_CHALLENGE);
  }

  /** What a side that is done has left on the wire is what the other side has said. */
  lemma DoneTook(from: Endpoint, to: Endpoint, c: seq<byte>, l: Line, sendStage: nat, getStage: nat)
    requires Flow(from, to, c, l, sendStage, getStage) && SentBy(from) <= TOTAL
    ensures GotBy(to) == TOTAL ==> l.at == TOTAL <= |l.sent| && l.sent[l.at..] == l.said
    ensures SentBy(from) == TOTAL ==> |l.sent| == TOTAL + |l.said|
  {
  }

  /** A run in which the handshake can go no further, whatever the pieces, has brought both sides to the end. */
  lemma HandshakeCompletes(t: Setting, steps: seq<Step>, w: World)
    requires SettingOk(t) && Runs(Start(t), t, steps, w)
    requires forall step :: !Says(step) ==> !Enabled(w, step)
    ensures w.client.stage == CLIENT_DONE && w.server.stage == SERVER_DONE
  {
    StartOk(t);
    RunKeeps(Start(t), t, steps, w);
    assert !Enabled(w, ClientSends(1)) && !Enabled(w, ServerSends(1));
    assert !Enabled(w, ClientGets(1)) && !Enabled(w, ServerGets(1));
  }
}
