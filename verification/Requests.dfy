/** What serving one request does to the whole server, whichever request comes next. */
module Requests {
  import opened Bytes
  import opened Frames
  import opened Tlv
  import opened Payloads
  import opened Accounts
  import opened Server
  import opened Invariants
  import opened Preservation
  import opened Histories

  // ---------- Frame locality ----------

  /** The server with other bytes waiting in one incoming buffer. */
  function Holding(w: World, fd: nat, bytes: seq<byte>): World
    requires fd < |w.conns|
  {
    Put(w, fd, w.conns[fd].(incoming := bytes))
  }

  /** The byte after an empty request is read, and makes no difference: each parser refuses an empty payload. */
  lemma {:induction false} PeekIrrelevant(w: World, fd: nat, m: Message, p: byte, q: byte, f: Faults)
    requires fd < |w.conns| && m.payload == []
    ensures Handle(w, fd, m, p, f) == Handle(w, fd, m, q, f)
    ensures m.kind == CHAT && w.conns[fd].status.auth ==>
              Handle(w, fd, m, p, f) == Outcome(w, Message(1, 2, 1, []))
  {
    EmptyPayloadRefused();
  }

  lemma {:induction false} RecipientIgnoresInput(conns: seq<Conn>, fd: nat, c: Conn, name: Text, from: nat)
    requires fd < |conns| && from <= |conns|
    ensures Recipient(conns[fd := c], fd, name, from) == Recipient(conns, fd, name, from)
    decreases |conns| - from
  {
    if from < |conns| {
      RecipientIgnoresInput(conns, fd, c, name, from + 1);
    }
  }

  lemma {:induction false} HandlerIgnoresInput(w: World, fd: nat, bytes: seq<byte>, m: Message, peek: byte, f: Faults)
    requires fd < |w.conns|
    ensures var o := Handle(w, fd, m, peek, f);
            Handle(Holding(w, fd, bytes), fd, m, peek, f) == Outcome(Holding(o.world, fd, bytes), o.response)
  {
    if m.kind == CHAT {
      ChatIgnoresInput(w, fd, bytes, m.payload, peek);
    } else if m.kind == LOGIN {
      LoginIgnoresInput(w, fd, bytes, m.payload, f);
    }
  }

  lemma {:induction false} LoginIgnoresInput(w: World, fd: nat, bytes: seq<byte>, payload: seq<byte>, f: Faults)
    requires fd < |w.conns|
    ensures var o := LoginUser(w, fd, payload, f);
            LoginUser(Holding(w, fd, bytes), fd, payload, f) == Outcome(Holding(o.world, fd, bytes), o.response)
  {
  }

  lemma {:induction false} ChatIgnoresInput(w: World, fd: nat, bytes: seq<byte>, payload: seq<byte>, peek: byte)
    requires fd < |w.conns|
    ensures var o := Broadcast(w, fd, payload, peek);
            Broadcast(Holding(w, fd, bytes), fd, payload, peek) == Outcome(Holding(o.world, fd, bytes), o.response)
  {
    WorldIgnoresInput(w, fd, bytes, payload);
    P2pIgnoresInput(w, fd, bytes, payload);
  }

  lemma {:induction false} WorldIgnoresInput(w: World, fd: nat, bytes: seq<byte>, payload: seq<byte>)
    requires fd < |w.conns|
    ensures var o := WorldRequest(w, fd, payload);
            WorldRequest(Holding(w, fd, bytes), fd, payload) == Outcome(Holding(o.world, fd, bytes), o.response)
  {
    if ParseWorld(payload).Some? {
      var m := WorldMessage(ParseWorld(payload).value.(sender := w.conns[fd].username));
      var v := Holding(w, fd, bytes);
      assert FanOut(v.conns, fd, m) == FanOut(w.conns, fd, m)[fd := v.conns[fd]];
    }
  }

  lemma {:induction false} P2pIgnoresInput(w: World, fd: nat, bytes: seq<byte>, payload: seq<byte>)
    requires fd < |w.conns|
    ensures var o := P2pRequest(w, fd, payload);
            P2pRequest(Holding(w, fd, bytes), fd, payload) == Outcome(Holding(o.world, fd, bytes), o.response)
  {
    if ParseP2p(payload).Some? {
      var b := ParseP2p(payload).value;
      var v := Holding(w, fd, bytes);
      RecipientIgnoresInput(w.conns, fd, v.conns[fd], b.recipient, 0);
      var to := Recipient(w.conns, fd, b.recipient, 0);
      if to.Some? {
        var m := P2pMessage(b.(sender := w.conns[fd].username));
        var notified := Notify(w.conns[to.value], m);
        assert v.conns[to.value := notified] == w.conns[to.value := notified][fd := v.conns[fd]];
      }
    }
  }

  /**
   * The response and every effect of a request depend on its own bytes and the
   * server's state, not on what follows it.
   */
  lemma {:induction false} FrameLocality(w: World, fd: nat, m: Message, x: seq<byte>, y: seq<byte>, f: Faults)
    requires fd < |w.conns| && |m.payload| <= MAX_PAYLOAD
    requires m.payload != [] || (x != [] && y != [])
    ensures var s := TryOne(Holding(w, fd, Serialize(m) + x), fd, f);
            var t := TryOne(Holding(w, fd, Serialize(m) + y), fd, f);
            && s.served && t.served
            && s.world.conns[fd].incoming == x && t.world.conns[fd].incoming == y
            && Holding(s.world, fd, []) == Holding(t.world, fd, [])
  {
    var peek := if m.payload == [] then 0 else m.payload[0];
    ServedAs(w, fd, m, x, peek, f);
    ServedAs(w, fd, m, y, peek, f);
  }

  /** One served request, with the handler run as if nothing else were waiting. */
  lemma {:induction false} ServedAs(w: World, fd: nat, m: Message, rest: seq<byte>, peek: byte, f: Faults)
    requires fd < |w.conns| && |m.payload| <= MAX_PAYLOAD
    requires m.payload != [] || rest != []
    requires m.payload != [] ==> peek == m.payload[0]
    ensures var o := Handle(w, fd, m, peek, f);
            var c := Answer(o.world.conns[fd].(incoming := Serialize(m) + rest), m, o.response);
            TryOne(Holding(w, fd, Serialize(m) + rest), fd, f) == Turn(Put(o.world, fd, c), true)
  {
    var bytes := Serialize(m) + rest;
    ExamineSerialized(m, rest);
    HandlerIgnoresInput(w, fd, bytes, m, bytes[HEADER_SIZE], f);
    if m.payload == [] {
      PeekIrrelevant(w, fd, m, bytes[HEADER_SIZE], peek, f);
    }
  }

  // ---------- Refusals ----------

  /** A request that is refused changes nothing but the requester's buffers, and its answer is a bare header. */
  lemma {:induction false} RefusedWithoutEffect(w: World, fd: nat, m: Message, peek: byte, f: Faults)
    requires fd < |w.conns|
    ensures var o := Handle(w, fd, m, peek, f);
            o.response.rc != OK ==> o.world == w && o.response == Message(1, m.kind, o.response.rc, [])
  {
  }

  /** Why requests are refused, in terms of who asks, what the payload consists of and which accounts exist. */
  lemma {:induction false} RefusalCodes(w: World, fd: nat, m: Message, peek: byte, f: Faults)
    requires fd < |w.conns|
    ensures var rc := Handle(w, fd, m, peek, f).response.rc;
            var fields := exists ts :: Fits(ts) && m.payload == EncodeAll(ts) && Accepts(CREDENTIALS, ts);
            var known := exists r :: r in w.db.rows && EqualUpToCase(r.name, CText(CredentialName(m.payload)));
            && (m.kind > 2 <==> rc == 6)
            && (m.kind == CHAT && !w.conns[fd].status.auth ==> rc == INVALID_CREDENTIALS)
            && (m.kind < CHAT ==> (rc == MALFORMED <==> !fields))
            && (m.kind < CHAT && fields && f.lookup ==> rc == INTERNAL)
            && (m.kind == REGISTER && fields && !f.lookup ==> (rc == USER_EXISTS <==> known))
            && (m.kind == REGISTER && fields && !f.lookup && !known ==>
                  (rc == INTERNAL <==> f.insert) && (rc == OK <==> !f.insert))
            && (m.kind == LOGIN && fields && !f.lookup ==> (rc == USER_NOT_FOUND <==> !known))
  {
    FieldsExact(CREDENTIALS, m.payload);
    if m.kind == REGISTER && ParseCredentials(m.payload).Some? {
      var c := ParseCredentials(m.payload).value;
      if Lookup(w.db.rows, Lower(c.username)).None? {
        FreeNameNotTaken(w.db, c.username);
      }
    }
    LookupExact(w.db.rows, CredentialName(m.payload));
    if m.kind == CHAT {
      ChatCodes(w, fd, m.payload, peek);
    }
  }

  function CredentialName(payload: seq<byte>): Text {
    match ParseCredentials(payload)
    case None => []
    case Some(c) => c.username
  }

  lemma {:induction false} ChatCodes(w: World, fd: nat, payload: seq<byte>, peek: byte)
    requires fd < |w.conns|
    ensures Broadcast(w, fd, payload, peek).response.rc in {OK, MALFORMED, USER_NOT_FOUND, INVALID_CREDENTIALS}
  {
    if ParseWorld(payload).Some? {
      WorldSize(ParseWorld(payload).value.(sender := w.conns[fd].username));
    }
    if ParseP2p(payload).Some? {
      P2pSize(ParseP2p(payload).value.(sender := w.conns[fd].username));
    }
  }

  // ---------- World broadcasts ----------

  /** A world broadcast that will be accepted is next in line on an authenticated connection. */
  predicate NextIsWorld(w: World, fd: nat, m: Message, b: WorldBroadcast) {
    && InService(w, fd) && w.conns[fd].status.auth
    && Examine(w.conns[fd].incoming) == Progress.Ready(m) && m.kind == CHAT
    && m.payload != [] && m.payload[0] == WORLD && ParseWorld(m.payload) == Some(b) && b.content != []
  }

  /** What the server builds from fields within their limits, a client reads and parses back. */
  lemma {:induction false} WorldReadable(b: WorldBroadcast)
    requires WorldFits(b)
    ensures var n := WorldMessage(b);
            && |n.payload| <= MAX_PAYLOAD && ParseWorld(n.payload) == Some(b)
            && (forall rest :: Take(Serialize(n) + rest) == Some(Received(n, rest)))
  {
    WorldSize(b);
    WorldRoundTrip(b);
    forall rest {
      TakeSerialized(WorldMessage(b), rest);
    }
  }

  lemma {:induction false} P2pReadable(b: P2pBroadcast)
    requires P2pFits(b)
    ensures var n := P2pMessage(b);
            && |n.payload| <= MAX_PAYLOAD && ParseP2p(n.payload) == Some(b)
            && (forall rest :: Take(Serialize(n) + rest) == Some(Received(n, rest)))
  {
    P2pSize(b);
    P2pRoundTrip(b);
    forall rest {
      TakeSerialized(P2pMessage(b), rest);
    }
  }

  lemma {:induction false} SenderFits(w: World, fd: nat)
    requires InService(w, fd) && w.conns[fd].status.auth
    ensures |w.conns[fd].username| <= MAX_NAME
  {
    assert ConnOk(w.db, w.accepted, w.conns[fd]);
  }

  /**
   * An accepted broadcast reaches every authenticated connection once and no other,
   * as identical bytes that a client reads and parses as the sender's account name
   * and the original content, whatever sender the request claimed.
   */
  lemma {:induction false} WorldDelivered(w: World, fd: nat, m: Message, b: WorldBroadcast, f: Faults)
    requires NextIsWorld(w, fd, m, b)
    ensures var v := TryOne(w, fd, f).world;
            var told := WorldBroadcast(w.conns[fd].username, b.content);
            var n := WorldMessage(told);
            && v.accepted == w.accepted + [n]
            && v.conns[fd].incoming == w.conns[fd].incoming[HEADER_SIZE + |m.payload|..]
            && (forall i | 0 <= i < |w.conns| ::
                  v.conns[i].outgoing == w.conns[i].outgoing + if w.conns[i].status.auth then Serialize(n) else [])
            && (forall i | 0 <= i < |w.conns| && !w.conns[i].status.auth :: v.conns[i] == w.conns[i])
            && (forall rest :: Take(Serialize(n) + rest) == Some(Received(n, rest)))
            && ParseWorld(n.payload) == Some(told)
  {
    var told := WorldBroadcast(w.conns[fd].username, b.content);
    assert w.conns[fd].incoming[HEADER_SIZE] == m.payload[0];
    ParsedInLimit(m.payload);
    SenderFits(w, fd);
    WorldReadable(told);
    AcceptedAs(w, fd, m, b, f);
    CopiesEnqueued(w.conns, fd, m, WorldMessage(told));
  }

  /** The fan-out and the answer to the sender, slot by slot. */
  lemma {:induction false} CopiesEnqueued(conns: seq<Conn>, fd: nat, request: Message, n: Message)
    requires fd < |conns| && conns[fd].status.auth && |conns[fd].incoming| >= HEADER_SIZE + |request.payload|
    ensures var after := FanOut(conns, fd, n)[fd := Answer(conns[fd], request, n)];
            && (forall i | 0 <= i < |conns| ::
                  after[i].outgoing == conns[i].outgoing + if conns[i].status.auth then Serialize(n) else [])
            && (forall i | 0 <= i < |conns| && !conns[i].status.auth :: after[i] == conns[i])
  {
    assert forall i | 0 <= i < |conns| && !conns[i].status.auth :: conns[i].outgoing + [] == conns[i].outgoing;
  }

  lemma {:induction false} AcceptedAs(w: World, fd: nat, m: Message, b: WorldBroadcast, f: Faults)
    requires fd < |w.conns| && w.conns[fd].status.auth && m.kind == CHAT
    requires ParseWorld(m.payload) == Some(b) && b.content != []
    ensures var n := WorldMessage(WorldBroadcast(w.conns[fd].username, b.content));
            Handle(w, fd, m, WORLD, f) == Outcome(w.(conns := FanOut(w.conns, fd, n), accepted := w.accepted + [n]), n)
  {
    WorldSize(WorldBroadcast(w.conns[fd].username, b.content));
  }

  /**
   * The log grows just when the requester is authenticated, the payload starts with
   * the world tag, parses, and says something.
   */
  lemma {:induction false} WorldAcceptedExactly(w: World, fd: nat, m: Message, peek: byte, f: Faults)
    requires fd < |w.conns|
    ensures Handle(w, fd, m, peek, f).world.accepted != w.accepted <==>
              && m.kind == CHAT && w.conns[fd].status.auth && peek == WORLD
              && ParseWorld(m.payload).Some? && ParseWorld(m.payload).value.content != []
  {
    if ParseWorld(m.payload).Some? {
      WorldSize(ParseWorld(m.payload).value.(sender := w.conns[fd].username));
    }
  }

  // ---------- Conservation of the fan-out ----------

  /** The count of authenticated connections that the metrics report. */
  function NumAuth(conns: seq<Conn>): nat {
    if conns == [] then 0
    else NumAuth(conns[..|conns| - 1]) +
         if conns[|conns| - 1].status.active && conns[|conns| - 1].status.auth then 1 else 0
  }

  function NumActive(conns: seq<Conn>): nat {
    if conns == [] then 0
    else NumActive(conns[..|conns| - 1]) + if conns[|conns| - 1].status.active then 1 else 0
  }

  function ActiveSlots(conns: seq<Conn>): set<nat> {
    set i: nat | i < |conns| && conns[i].status.active
  }

  function AuthSlots(conns: seq<Conn>): set<nat> {
    set i: nat | i < |conns| && conns[i].status.active && conns[i].status.auth
  }

  /** The counts are the numbers of such slots. */
  lemma {:induction false} ActiveCounted(conns: seq<Conn>)
    ensures NumActive(conns) == |ActiveSlots(conns)|
  {
    if conns != [] {
      var n := |conns| - 1;
      ActiveCounted(conns[..n]);
      assert ActiveSlots(conns[..n]) == ActiveSlots(conns) - {n};
    }
  }

  lemma {:induction false} AuthCounted(conns: seq<Conn>)
    ensures NumAuth(conns) == |AuthSlots(conns)|
  {
    if conns != [] {
      var n := |conns| - 1;
      AuthCounted(conns[..n]);
      assert AuthSlots(conns[..n]) == AuthSlots(conns) - {n};
    }
  }

  /** Bytes waiting to be written, over all slots. */
  function Pending(conns: seq<Conn>): nat {
    if conns == [] then 0 else Pending(conns[..|conns| - 1]) + |conns[|conns| - 1].outgoing|
  }

  lemma {:induction false} PendingGrows(before: seq<Conn>, after: seq<Conn>, size: nat)
    requires |before| == |after|
    requires forall i | 0 <= i < |before| :: before[i].status.auth ==> before[i].status.active
    requires forall i | 0 <= i < |before| ::
               |after[i].outgoing| == |before[i].outgoing| + if before[i].status.auth then size else 0
    ensures Pending(after) == Pending(before) + NumAuth(before) * size
  {
    if before != [] {
      var n := |before| - 1;
      PendingGrows(before[..n], after[..n], size);
      OneMore(NumAuth(before[..n]), size);
    }
  }

  lemma {:induction false} OneMore(k: nat, size: nat)
    ensures (k + 1) * size == k * size + size
  {
  }

  /** The copies enqueued are as many as the metrics count authenticated connections. */
  lemma {:induction false} FanOutConserved(w: World, fd: nat, m: Message, b: WorldBroadcast, f: Faults)
    requires NextIsWorld(w, fd, m, b)
    ensures var n := WorldMessage(WorldBroadcast(w.conns[fd].username, b.content));
            Pending(TryOne(w, fd, f).world.conns) == Pending(w.conns) + NumAuth(w.conns) * |Serialize(n)|
  {
    WorldDelivered(w, fd, m, b, f);
    forall i | 0 <= i < |w.conns| ensures w.conns[i].status.auth ==> w.conns[i].status.active {
      assert ConnOk(w.db, w.accepted, w.conns[i]);
    }
    var n := WorldMessage(WorldBroadcast(w.conns[fd].username, b.content));
    PendingGrows(w.conns, TryOne(w, fd, f).world.conns, |Serialize(n)|);
  }

  // ---------- Private messages ----------

  predicate NextIsP2p(w: World, fd: nat, m: Message, b: P2pBroadcast) {
    && InService(w, fd) && w.conns[fd].status.auth
    && Examine(w.conns[fd].incoming) == Progress.Ready(m) && m.kind == CHAT
    && m.payload != [] && m.payload[0] == P2P && ParseP2p(m.payload) == Some(b) && b.content != []
    && b.recipient != w.conns[fd].username
  }

  /**
   * A private message goes to the lowest slot, other than the sender's, that is logged
   * in under the name, and back to its sender; nobody else is touched.
   */
  lemma {:induction false} P2pRouted(w: World, fd: nat, m: Message, b: P2pBroadcast, to: nat, f: Faults)
    requires NextIsP2p(w, fd, m, b)
    requires to < |w.conns| && to != fd && w.conns[to].status.auth && w.conns[to].username == b.recipient
    requires forall i | 0 <= i < to :: !(i != fd && w.conns[i].status.auth && w.conns[i].username == b.recipient)
    ensures var v := TryOne(w, fd, f).world;
            var told := P2pBroadcast(w.conns[fd].username, b.recipient, b.content);
            var n := P2pMessage(told);
            && v.conns[to].outgoing == w.conns[to].outgoing + Serialize(n)
            && v.conns[to].status == w.conns[to].status.(wantRead := false, wantWrite := true)
            && v.conns[to].incoming == w.conns[to].incoming && v.conns[to].username == w.conns[to].username
            && v.conns[fd].outgoing == w.conns[fd].outgoing + Serialize(n)
            && v.conns[fd].incoming == w.conns[fd].incoming[HEADER_SIZE + |m.payload|..]
            && v.conns[fd].status == w.conns[fd].status && v.conns[fd].username == w.conns[fd].username
            && (forall i | 0 <= i < |w.conns| && i != fd && i != to :: v.conns[i] == w.conns[i])
            && v.accepted == w.accepted && v.db == w.db
            && (forall rest :: Take(Serialize(n) + rest) == Some(Received(n, rest)))
            && ParseP2p(n.payload) == Some(told)
  {
    P2pToldReadable(w, fd, m, b);
    NextPeek(w, fd, m);
    RoutedTo(w, fd, m, b, to, f);
    RoutedConns(w, fd, m, P2pMessage(P2pBroadcast(w.conns[fd].username, b.recipient, b.content)), to, f);
  }

  lemma {:induction false} P2pToldReadable(w: World, fd: nat, m: Message, b: P2pBroadcast)
    requires NextIsP2p(w, fd, m, b)
    ensures var told := P2pBroadcast(w.conns[fd].username, b.recipient, b.content);
            var n := P2pMessage(told);
            && (forall rest :: Take(Serialize(n) + rest) == Some(Received(n, rest)))
            && ParseP2p(n.payload) == Some(told)
  {
    ParsedInLimit(m.payload);
    SenderFits(w, fd);
    P2pReadable(P2pBroadcast(w.conns[fd].username, b.recipient, b.content));
  }

  /** The byte the server peeks at is the first of the payload. */
  lemma {:induction false} NextPeek(w: World, fd: nat, m: Message)
    requires fd < |w.conns| && Examine(w.conns[fd].incoming) == Progress.Ready(m) && m.payload != []
    ensures w.conns[fd].incoming[HEADER_SIZE] == m.payload[0]
  {
  }

  lemma {:induction false} RoutedConns(w: World, fd: nat, m: Message, n: Message, to: nat, f: Faults)
    requires fd < |w.conns| && to < |w.conns| && fd != to && Examine(w.conns[fd].incoming) == Progress.Ready(m)
    requires Handle(w, fd, m, w.conns[fd].incoming[HEADER_SIZE], f) == Outcome(Put(w, to, Notify(w.conns[to], n)), n)
    ensures var v := TryOne(w, fd, f).world;
            && v.conns[to].outgoing == w.conns[to].outgoing + Serialize(n)
            && v.conns[to].status == w.conns[to].status.(wantRead := false, wantWrite := true)
            && v.conns[to].incoming == w.conns[to].incoming && v.conns[to].username == w.conns[to].username
            && v.conns[fd].outgoing == w.conns[fd].outgoing + Serialize(n)
            && v.conns[fd].incoming == w.conns[fd].incoming[HEADER_SIZE + |m.payload|..]
            && v.conns[fd].status == w.conns[fd].status && v.conns[fd].username == w.conns[fd].username
            && (forall i | 0 <= i < |w.conns| && i != fd && i != to :: v.conns[i] == w.conns[i])
            && v.accepted == w.accepted && v.db == w.db
  {
  }

  lemma {:induction false} RoutedTo(w: World, fd: nat, m: Message, b: P2pBroadcast, to: nat, f: Faults)
    requires fd < |w.conns| && w.conns[fd].status.auth && m.kind == CHAT
    requires ParseP2p(m.payload) == Some(b) && b.content != [] && b.recipient != w.conns[fd].username
    requires to < |w.conns| && to != fd && w.conns[to].status.auth && w.conns[to].username == b.recipient
    requires forall i | 0 <= i < to :: !(i != fd && w.conns[i].status.auth && w.conns[i].username == b.recipient)
    ensures var n := P2pMessage(P2pBroadcast(w.conns[fd].username, b.recipient, b.content));
            Handle(w, fd, m, P2P, f) == Outcome(Put(w, to, Notify(w.conns[to], n)), n)
  {
    P2pSize(P2pBroadcast(w.conns[fd].username, b.recipient, b.content));
    assert IsPeer(w.conns, fd, b.recipient, to);
    assert Recipient(w.conns, fd, b.recipient, 0) == Some(to);
  }

  /** With nobody logged in under the name, only the sender hears of it. */
  lemma {:induction false} P2pUnroutable(w: World, fd: nat, m: Message, b: P2pBroadcast, f: Faults)
    requires NextIsP2p(w, fd, m, b)
    requires forall i | 0 <= i < |w.conns| ::
               !(i != fd && w.conns[i].status.auth && w.conns[i].username == b.recipient)
    ensures var v := TryOne(w, fd, f).world;
            && v == w.(conns := w.conns[fd := v.conns[fd]])
            && v.conns[fd].outgoing == w.conns[fd].outgoing + Serialize(Message(1, 2, 3, []))
            && v.conns[fd].status == w.conns[fd].status && v.conns[fd].username == w.conns[fd].username
  {
    assert w.conns[fd].incoming[HEADER_SIZE] == m.payload[0];
    Unrouted(w, fd, m, b, f);
  }

  lemma {:induction false} Unrouted(w: World, fd: nat, m: Message, b: P2pBroadcast, f: Faults)
    requires fd < |w.conns| && w.conns[fd].status.auth && m.kind == CHAT
    requires ParseP2p(m.payload) == Some(b) && b.content != [] && b.recipient != w.conns[fd].username
    requires forall i | 0 <= i < |w.conns| ::
               !(i != fd && w.conns[i].status.auth && w.conns[i].username == b.recipient)
    ensures Handle(w, fd, m, P2P, f) == Outcome(w, StatusOnly(CHAT, USER_NOT_FOUND))
  {
    P2pSize(b.(sender := w.conns[fd].username));
    assert Recipient(w.conns, fd, b.recipient, 0).None?;
  }

  // ---------- Schema evolution ----------

  /** Fields the server does not know, and the order of those it does, are irrelevant to registration and login. */
  lemma {:induction false} CredentialsEvolve(w: World, fd: nat, ts: seq<Tlv>, us: seq<Tlv>, f: Faults)
    requires fd < |w.conns| && Fits(ts) && Fits(us) && SameFields(CREDENTIALS, ts, us)
    ensures RegisterUser(w, EncodeAll(ts), f) == RegisterUser(w, EncodeAll(us), f)
    ensures LoginUser(w, fd, EncodeAll(ts), f) == LoginUser(w, fd, EncodeAll(us), f)
  {
    SplitExact(EncodeAll(ts), ts);
    SplitExact(EncodeAll(us), us);
    SameFieldsAccepted(CREDENTIALS, ts, us);
  }

  /** For broadcasts this holds of everything after the first field. */
  lemma {:induction false} BroadcastsEvolve(w: World, fd: nat, ts: seq<Tlv>, us: seq<Tlv>)
    requires fd < |w.conns| && Fits(ts) && Fits(us) && ts != [] && us != [] && ts[0].tag == us[0].tag
    requires SameFields(WORLD_BROADCAST, ts, us) && SameFields(P2P_BROADCAST, ts, us)
    ensures Broadcast(w, fd, EncodeAll(ts), EncodeAll(ts)[0]) == Broadcast(w, fd, EncodeAll(us), EncodeAll(us)[0])
  {
    SameWorldParse(ts, us);
    SameP2pParse(ts, us);
  }

  lemma {:induction false} SameWorldParse(ts: seq<Tlv>, us: seq<Tlv>)
    requires Fits(ts) && Fits(us) && SameFields(WORLD_BROADCAST, ts, us)
    ensures ParseWorld(EncodeAll(ts)) == ParseWorld(EncodeAll(us))
  {
    SplitExact(EncodeAll(ts), ts);
    SplitExact(EncodeAll(us), us);
    SameFieldsAccepted(WORLD_BROADCAST, ts, us);
  }

  lemma {:induction false} SameP2pParse(ts: seq<Tlv>, us: seq<Tlv>)
    requires Fits(ts) && Fits(us) && SameFields(P2P_BROADCAST, ts, us)
    ensures ParseP2p(EncodeAll(ts)) == ParseP2p(EncodeAll(us))
  {
    SplitExact(EncodeAll(ts), ts);
    SplitExact(EncodeAll(us), us);
    SameFieldsAccepted(P2P_BROADCAST, ts, us);
  }

  lemma {:induction false} FirstByte(ts: seq<Tlv>)
    requires ts != []
    ensures EncodeAll(ts) != [] && EncodeAll(ts)[0] == ts[0].tag
  {
    assert Encode(ts[0])[0] == ts[0].tag;
  }

  /** The outcome of a rearranged request is decided by the tag that comes first in it. */
  lemma {:induction false} FirstTagDecides(w: World, fd: nat, us: seq<Tlv>)
    requires fd < |w.conns| && w.conns[fd].status.auth && us != []
    ensures EncodeAll(us) != []
    ensures var p := EncodeAll(us);
            Broadcast(w, fd, p, p[0]) ==
              if us[0].tag == WORLD then WorldRequest(w, fd, p)
              else if us[0].tag == P2P then P2pRequest(w, fd, p)
              else Outcome(w, StatusOnly(CHAT, MALFORMED))
  {
    FirstByte(us);
  }

  lemma {:induction false} SomeField(s: Schema, ts: seq<Tlv>, us: seq<Tlv>)
    requires SameFields(s, ts, us) && Accepts(s, ts) && s.required != {}
    ensures us != []
  {
    var tag :| tag in s.required;
    assert Has(ts, tag) && Values(us, tag) == Values(ts, tag);
  }

  /** What a world broadcast with something to say does: everybody hears it under the sender's account name. */
  function Announced(w: World, fd: nat, content: Text): Outcome
    requires fd < |w.conns|
  {
    var n := WorldMessage(WorldBroadcast(w.conns[fd].username, content));
    Outcome(w.(conns := FanOut(w.conns, fd, n), accepted := w.accepted + [n]), n)
  }

  lemma {:induction false} WorldOutcome(w: World, fd: nat, payload: seq<byte>, b: WorldBroadcast)
    requires fd < |w.conns| && ParseWorld(payload) == Some(b)
    ensures WorldRequest(w, fd, payload) ==
              if b.content == [] then Outcome(w, StatusOnly(CHAT, MALFORMED)) else Announced(w, fd, b.content)
  {
    WorldSize(b.(sender := w.conns[fd].username));
  }

  /** A private message is never entered in the log; it is refused as malformed if it is empty or for its sender. */
  lemma {:induction false} P2pOutcome(w: World, fd: nat, payload: seq<byte>)
    requires fd < |w.conns|
    ensures var o := P2pRequest(w, fd, payload);
            && o.world.accepted == w.accepted
            && match ParseP2p(payload)
               case None => o == Outcome(w, StatusOnly(CHAT, MALFORMED))
               case Some(b) =>
                 if b.content == [] || b.recipient == w.conns[fd].username then
                   o == Outcome(w, StatusOnly(CHAT, MALFORMED))
                 else
                   o.response.rc ==
                   if exists i | 0 <= i < |w.conns| ::
                        i != fd && w.conns[i].status.auth && w.conns[i].username == b.recipient then OK
                   else USER_NOT_FOUND
  {
    if ParseP2p(payload).Some? {
      P2pSize(ParseP2p(payload).value.(sender := w.conns[fd].username));
      RecipientExact(w.conns, fd, ParseP2p(payload).value.recipient);
    }
  }

  lemma {:induction false} RecipientExact(conns: seq<Conn>, fd: nat, name: Text)
    ensures Recipient(conns, fd, name, 0).Some? <==>
            exists i | 0 <= i < |conns| :: i != fd && conns[i].status.auth && conns[i].username == name
  {
    assert forall i | 0 <= i < |conns| ::
        IsPeer(conns, fd, name, i) <==> i != fd && conns[i].status.auth && conns[i].username == name;
  }

  /** Both kinds of broadcast say the same under the tags they share. */
  lemma {:induction false} SharedFields(us: seq<Tlv>)
    requires Fits(us)
    ensures var p := EncodeAll(us);
            ParseWorld(p).Some? && ParseP2p(p).Some? ==> ParseP2p(p).value.content == ParseWorld(p).value.content
    ensures var p := EncodeAll(us);
            ParseP2p(p).Some? && us != [] && us[0].tag == WORLD ==>
              ParseWorld(p) == Some(WorldBroadcast(ParseP2p(p).value.sender, ParseP2p(p).value.content))
  {
    SplitExact(EncodeAll(us), us);
  }

  /**
   * The order independence the protocol advertises does not extend to the first
   * field. A rearrangement of a world broadcast that parses is treated like the
   * original just when the broadcast tag still comes first, or when there is nothing
   * to say; otherwise it is taken for a private message or refused without effect.
   */
  lemma {:induction false} OrderIndependenceExact(w: World, fd: nat, ts: seq<Tlv>, us: seq<Tlv>, b: WorldBroadcast)
    requires fd < |w.conns| && w.conns[fd].status.auth && Fits(ts) && Fits(us) && SameFields(WORLD_BROADCAST, ts, us)
    requires ParseWorld(EncodeAll(ts)) == Some(b)
    ensures us != [] && EncodeAll(us) != []
    ensures var p := EncodeAll(us);
            var o := Broadcast(w, fd, p, p[0]);
            && (o == WorldRequest(w, fd, EncodeAll(ts)) <==> us[0].tag == WORLD || b.content == [])
            && (us[0].tag == P2P ==> o == P2pRequest(w, fd, p))
            && (us[0].tag !in {WORLD, P2P} ==> o == Outcome(w, StatusOnly(CHAT, MALFORMED)))
  {
    SplitExact(EncodeAll(ts), ts);
    SomeField(WORLD_BROADCAST, ts, us);
    SameWorldParse(ts, us);
    FirstTagDecides(w, fd, us);
    WorldOutcome(w, fd, EncodeAll(ts), b);
    WorldOutcome(w, fd, EncodeAll(us), b);
    P2pOutcome(w, fd, EncodeAll(us));
    SharedFields(us);
  }

  /**
   * A rearrangement of a private message that parses is treated like the original
   * just when its tag still comes first, or it is empty, or it is addressed to its
   * sender and no world tag comes first. With a world tag in front, what was meant for
   * one user is broadcast to everybody; with any third tag it is refused without effect.
   */
  lemma {:induction false} PrivateOrderExact(w: World, fd: nat, ts: seq<Tlv>, us: seq<Tlv>, b: P2pBroadcast)
    requires fd < |w.conns| && w.conns[fd].status.auth && Fits(ts) && Fits(us) && SameFields(P2P_BROADCAST, ts, us)
    requires ParseP2p(EncodeAll(ts)) == Some(b)
    ensures us != [] && EncodeAll(us) != []
    ensures var p := EncodeAll(us);
            var o := Broadcast(w, fd, p, p[0]);
            && (o == P2pRequest(w, fd, EncodeAll(ts)) <==>
                  || us[0].tag == P2P || b.content == []
                  || (b.recipient == w.conns[fd].username && us[0].tag != WORLD))
            && (us[0].tag == WORLD && b.content != [] ==> o == Announced(w, fd, b.content))
            && (us[0].tag !in {WORLD, P2P} ==> o == Outcome(w, StatusOnly(CHAT, MALFORMED)))
            && (&& (exists i | 0 <= i < |w.conns| ::
                      i != fd && w.conns[i].status.auth && w.conns[i].username == b.recipient)
                && b.content != [] && b.recipient != w.conns[fd].username ==>
                  (o.response.rc == OK <==> us[0].tag in {WORLD, P2P}))
  {
    SplitExact(EncodeAll(ts), ts);
    SomeField(P2P_BROADCAST, ts, us);
    SameP2pParse(ts, us);
    FirstTagDecides(w, fd, us);
    P2pOutcome(w, fd, EncodeAll(ts));
    P2pOutcome(w, fd, EncodeAll(us));
    SharedFields(us);
    if us[0].tag == WORLD {
      WorldOutcome(w, fd, EncodeAll(us), WorldBroadcast(b.sender, b.content));
    }
  }

  /** For instance "hi" from "a" with its fields in another order: every parser takes it, the server does not. */
  lemma {:induction false} MisplacedTagRefused(w: World, fd: nat)
    requires fd < |w.conns| && w.conns[fd].status.auth
    ensures var us := [Tlv(SENDER, [97]), Tlv(CONTENT, [104, 105]), Tlv(WORLD, [])];
            var p := EncodeAll(us);
            && ParseWorld(p) == Some(WorldBroadcast([97], [104, 105]))
            && Broadcast(w, fd, p, p[0]) == Outcome(w, StatusOnly(CHAT, MALFORMED))
  {
    var us := [Tlv(SENDER, [97]), Tlv(CONTENT, [104, 105]), Tlv(WORLD, [])];
    assert us[0] in us && us[1] in us && us[2] in us;
    FieldsOfEncoded(WORLD_BROADCAST, us);
  }

  /** The fields of a message that carries both kinds of tag, "hi" from "a" to "b". */
  function BothKinds(first: byte, last: byte): seq<Tlv> {
    [Tlv(first, []), Tlv(SENDER, [97]), Tlv(RECIPIENT, [98]), Tlv(CONTENT, [104, 105]), Tlv(last, [])]
  }

  lemma {:induction false} BothKindsValues(first: byte, last: byte)
    requires (first == WORLD && last == P2P) || (first == P2P && last == WORLD)
    ensures var us := BothKinds(first, last);
            && Values(us, WORLD) == Values(us, P2P) == [[]]
            && Values(us, SENDER) == [[97]] && Values(us, RECIPIENT) == [[98]] && Values(us, CONTENT) == [[104, 105]]
  {
    var us := BothKinds(first, last);
    assert us[0] in us && us[1] in us && us[2] in us && us[3] in us && us[4] in us;
    OnlyValue(us, us[0]);
    OnlyValue(us, us[1]);
    OnlyValue(us, us[2]);
    OnlyValue(us, us[3]);
    OnlyValue(us, us[4]);
  }

  lemma {:induction false} BothKindsParse(first: byte, last: byte)
    requires (first == WORLD && last == P2P) || (first == P2P && last == WORLD)
    ensures var p := EncodeAll(BothKinds(first, last));
            && ParseWorld(p) == Some(WorldBroadcast([97], [104, 105]))
            && ParseP2p(p) == Some(P2pBroadcast([97], [98], [104, 105]))
  {
    var us := BothKinds(first, last);
    BothKindsValues(first, last);
    SplitExact(EncodeAll(us), us);
  }

  /** The same fields that one order has announced to everybody, another order has sent to one user only. */
  lemma {:induction false} MisplacedTagDiverts(w: World, fd: nat)
    requires fd < |w.conns| && w.conns[fd].status.auth && w.conns[fd].username != [98]
    requires exists i | 0 <= i < |w.conns| :: i != fd && w.conns[i].status.auth && w.conns[i].username == [98]
    ensures var p, q := EncodeAll(BothKinds(WORLD, P2P)), EncodeAll(BothKinds(P2P, WORLD));
            && p != [] && q != []
            && (forall s :: SameFields(s, BothKinds(WORLD, P2P), BothKinds(P2P, WORLD)))
            && Broadcast(w, fd, p, p[0]) == Announced(w, fd, [104, 105])
            && Broadcast(w, fd, q, q[0]).response.rc == OK && Broadcast(w, fd, q, q[0]).world.accepted == w.accepted
  {
    var ts, us := BothKinds(WORLD, P2P), BothKinds(P2P, WORLD);
    SameBothKinds();
    BothKindsParse(WORLD, P2P);
    BothKindsParse(P2P, WORLD);
    FirstTagDecides(w, fd, ts);
    FirstTagDecides(w, fd, us);
    WorldOutcome(w, fd, EncodeAll(ts), WorldBroadcast([97], [104, 105]));
    P2pOutcome(w, fd, EncodeAll(us));
  }

  lemma {:induction false} SameBothKinds()
    ensures forall s :: SameFields(s, BothKinds(WORLD, P2P), BothKinds(P2P, WORLD))
  {
    var ts, us := BothKinds(WORLD, P2P), BothKinds(P2P, WORLD);
    assert ts[0] == us[4] && ts[4] == us[0] && ts[1..4] == us[1..4];
    forall t ensures t in ts <==> t in us {
    }
    forall s {
      ReorderingIgnored(s, ts, us);
    }
  }

  // ---------- Accounts across requests ----------

  /**
   * A registration succeeds just when nothing fails and no account has the name up to
   * letter case. It adds one row, under the next row id and with the texts cut at
   * their first NUL; its answer tells that id modulo 2^32 and the name as it was sent.
   */
  lemma {:induction false} Registered(w: World, payload: seq<byte>, c: Credentials, f: Faults)
    requires AccountsOk(w.db) && ParseCredentials(payload) == Some(c)
    ensures var o := RegisterUser(w, payload, f);
            var row := Row(w.db.nextRowid, CText(c.username), CText(c.password));
            && (o.response.rc == OK <==>
                  && !f.lookup && !f.insert
                  && forall r | r in w.db.rows :: !EqualUpToCase(r.name, CText(c.username)))
            && (o.response.rc == OK ==>
                  && o.world == w.(db := Database(w.db.rows + [row], w.db.nextRowid + 1))
                  && AccountsOk(o.world.db))
            && (o.response.rc == OK ==>
                  && o.response == AccountMessage(REGISTER, Account(w.db.nextRowid % 0x1_0000_0000, c.username))
                  && forall id :: ParseAccount(o.response.payload, id) ==
                                  Some(Account(w.db.nextRowid % 0x1_0000_0000, c.username)))
            && (o.response.rc != OK ==> o.world == w)
  {
    ParsedInLimit(payload);
    LookupExact(w.db.rows, c.username);
    if Lookup(w.db.rows, Lower(c.username)).None? {
      InsertKeeps(w.db, c.username, c.password);
      forall id {
        AccountRoundTrip(REGISTER, Account(UserId(NewRow(w.db, c.username, c.password)), c.username), id);
      }
    }
  }

  /**
   * In every later state, from any connection and under any casing of the name, the
   * stored password logs in as that account and any other password is refused.
   */
  lemma {:induction false} LoginDecided(w: World, fd: nat, k: nat, payload: seq<byte>, c: Credentials)
    requires AccountsOk(w.db) && fd < |w.conns| && k < |w.db.rows|
    requires ParseCredentials(payload) == Some(c) && EqualUpToCase(w.db.rows[k].name, CText(c.username))
    ensures var o := LoginUser(w, fd, payload, NO_FAULTS);
            var row := w.db.rows[k];
            if c.password == row.password then
              && o.response == AccountMessage(LOGIN, Account(UserId(row), row.name))
              && o.world.conns[fd].status.auth
              && o.world.conns[fd].userId == UserId(row) && o.world.conns[fd].username == row.name
            else
              o == Outcome(w, StatusOnly(LOGIN, INVALID_CREDENTIALS))
  {
    LookupFinds(w.db, k, c.username);
  }

  /**
   * The credentials of a successful registration log in, in any later state, exactly
   * when the password holds no NUL byte, at which the table cuts it off.
   */
  lemma {:induction false} RegisterThenLogin(w: World, v: World, fd: nat, payload: seq<byte>, c: Credentials, f: Faults)
    requires AccountsOk(w.db) && ParseCredentials(payload) == Some(c)
    requires RegisterUser(w, payload, f).response.rc == OK && RegisterUser(w, payload, f).world.db.rows <= v.db.rows
    requires AccountsOk(v.db) && fd < |v.conns|
    ensures LoginUser(v, fd, payload, NO_FAULTS).response.rc == OK <==> 0 !in c.password
  {
    Registered(w, payload, c, f);
    var k := |w.db.rows|;
    assert RegisterUser(w, payload, f).world.db.rows[k] == NewRow(w.db, c.username, c.password);
    LookupFinds(v.db, k, c.username);
    assert CText(c.password) == c.password <==> 0 !in c.password;
  }

  /** For instance "a" with the password "b" and a NUL, on an empty table. */
  lemma {:induction false} NulPasswordLost(w: World, fd: nat)
    requires w.db.rows == [] && fd < |w.conns|
    ensures var p := CredentialMessage(REGISTER, Credentials([97], [98, 0])).payload;
            var o := RegisterUser(w, p, NO_FAULTS);
            o.response.rc == OK && LoginUser(o.world, fd, p, NO_FAULTS).response.rc == INVALID_CREDENTIALS
  {
    var c := Credentials([97], [98, 0]);
    var p := CredentialMessage(REGISTER, c).payload;
    CredentialsRoundTrip(REGISTER, c);
    Registered(w, p, c, NO_FAULTS);
    var v := RegisterUser(w, p, NO_FAULTS).world;
    assert v.db.rows[0] == NewRow(w.db, c.username, c.password);
    LookupFinds(v.db, 0, c.username);
  }

  /** No login whose password holds a NUL byte ever succeeds. */
  lemma {:induction false} NulPasswordRefused(w: World, fd: nat, payload: seq<byte>, c: Credentials, f: Faults)
    requires AccountsOk(w.db) && fd < |w.conns| && ParseCredentials(payload) == Some(c) && 0 in c.password
    ensures LoginUser(w, fd, payload, f).response.rc in {INTERNAL, USER_NOT_FOUND, INVALID_CREDENTIALS}
  {
  }

  /** An account keeps its place, its name, its id and its password over every run, and so logs in ever after. */
  lemma {:induction false} AccountsLast(w: World, es: seq<Event>, v: World, k: nat,
                                        fd: nat, payload: seq<byte>, c: Credentials)
    requires Reachable(w) && Possible(w, es) && v == Run(w, es) && k < |w.db.rows| && fd < |v.conns|
    requires ParseCredentials(payload) == Some(c) && EqualUpToCase(w.db.rows[k].name, CText(c.username))
    ensures k < |v.db.rows| && v.db.rows[k] == w.db.rows[k]
    ensures LoginUser(v, fd, payload, NO_FAULTS).response ==
              if c.password == w.db.rows[k].password then
                AccountMessage(LOGIN, Account(UserId(w.db.rows[k]), w.db.rows[k].name))
              else StatusOnly(LOGIN, INVALID_CREDENTIALS)
  {
    ReachableOk(w);
    RunKeeps(w, es);
    RunGrew(w, es);
    LoginDecided(v, fd, k, payload, c);
  }
}
