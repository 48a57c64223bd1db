/** What holds of every connection throughout a run, and what holds in addition between two events. */
module Invariants {
  import opened Bytes
  import opened Frames
  import opened Payloads
  import opened Flags
  import opened Accounts
  import opened Server

  // ---------- One connection, at any moment ----------

  const MAX_SENT := 327

  /** What the server may send: a declared response code and a payload that no length field loses bits of. */
  predicate Sane(m: Message) {
    m.version == VERSION && m.rc <= UNKNOWN_COMMAND && |m.payload| <= MAX_SENT
  }

  predicate IsNotification(m: Message) {
    m.kind == CHAT && m.rc == OK && m.payload != []
  }

  predicate IsWorld(m: Message) {
    IsNotification(m) && m.payload[0] == WORLD
  }

  /** The world broadcasts among some messages. */
  function Worlds(ms: seq<Message>): seq<Message> {
    if ms == [] then []
    else
      var n := |ms| - 1;
      if IsWorld(ms[n]) then Worlds(ms[..n]) + [ms[n]] else Worlds(ms[..n])
  }

  lemma {:induction false} WorldsSnoc(ms: seq<Message>, m: Message)
    ensures Worlds(ms + [m]) == if IsWorld(m) then Worlds(ms) + [m] else Worlds(ms)
  {
    assert (ms + [m])[..|ms|] == ms;
  }

  /** Nothing is lost, invented or reordered between the messages enqueued and the bytes on the socket. */
  predicate OutputKept(c: Conn) {
    c.trail.written + c.outgoing == Concat(c.trail.enqueued)
  }

  predicate FramesSane(c: Conn) {
    forall k | 0 <= k < |c.trail.enqueued| :: Sane(c.trail.enqueued[k])
  }

  /** The requests served and the bytes still held are a decoding of the bytes received. */
  predicate InputKept(c: Conn) {
    Decode(c.trail.received) == Prepend(c.trail.served, Decode(c.incoming))
  }

  /** One answer per request, in request order; everything else sent is a notification. */
  predicate AnswersMatch(c: Conn) {
    var t := c.trail;
    && |t.replies| == |t.served|
    && (forall k | 0 <= k < |t.replies| ::
          t.replies[k] < |t.enqueued| && t.enqueued[t.replies[k]].kind == t.served[k].kind)
    && (forall j, k | 0 <= j < k < |t.replies| :: t.replies[j] < t.replies[k])
    && (forall p | 0 <= p < |t.enqueued| && p !in t.replies :: IsNotification(t.enqueued[p]))
  }

  predicate IsAccount(rows: seq<Row>, id: u32, name: Text) {
    exists r | r in rows :: UserId(r) == id && r.name == name
  }

  /** An authenticated slot is active and carries a stored account. */
  predicate Identified(db: Database, c: Conn) {
    c.status.auth ==> c.status.active && IsAccount(db.rows, c.userId, c.username) && |c.username| <= MAX_NAME
  }

  /** The part of the log a session covers. */
  function Covered(log: seq<Message>, s: Session): Option<seq<Message>> {
    match s
    case Anonymous => Some([])
    case Member(since) => if since <= |log| then Some(log[since..]) else None
    case Former(since, until) => if since <= until <= |log| then Some(log[since..until]) else None
  }

  /** The world broadcasts a connection was sent are the stretch of the log during which it was authenticated. */
  predicate InOrder(log: seq<Message>, c: Conn) {
    && (c.status.auth <==> c.trail.session.Member?)
    && (c.trail.session.Former? ==> !c.status.active)
    && Covered(log, c.trail.session) == Some(Worlds(c.trail.enqueued))
  }

  predicate ConnOk(db: Database, log: seq<Message>, c: Conn) {
    OutputKept(c) && FramesSane(c) && InputKept(c) && AnswersMatch(c) && Identified(db, c) && InOrder(log, c)
  }

  // ---------- One connection, between events ----------

  /** A slot no connection has used yet. */
  predicate Untouched(c: Conn) {
    c.incoming == [] && c.outgoing == [] && c.trail == NO_TRAIL
  }

  /** A live connection: it waits for exactly one thing, and for the right one. */
  predicate Open(c: Conn) {
    && c.trail.used && !c.trail.aborted
    && c.status.active && !c.status.wantClose && c.status.wantRead != c.status.wantWrite
    && (c.status.wantWrite <==> c.outgoing != [])
    && c.interest == (if c.status.wantWrite then Writable else Readable)
    && Decode(c.incoming) == Decoded([], c.incoming, false)
  }

  /** A slot out of use: never used, or closed because of an oversized request or an abort. */
  predicate Shut(c: Conn) {
    && c.status == IDLE && c.interest.Unwatched?
    && (!c.trail.used ==> Untouched(c))
    && (c.trail.used && !c.trail.aborted ==> Decode(c.incoming) == Decoded([], c.incoming, true))
  }

  predicate Resting(c: Conn) {
    Shut(c) || Open(c)
  }

  // ---------- The whole server ----------

  predicate AllOk(w: World) {
    && AccountsOk(w.db)
    && (forall i | 0 <= i < |w.conns| :: ConnOk(w.db, w.accepted, w.conns[i]))
    && (forall i | 0 <= i < |w.conns| :: i !in w.handed ==> !w.conns[i].trail.used)
  }

  predicate OthersRest(w: World, fd: nat) {
    forall i | 0 <= i < |w.conns| && i != fd :: Resting(w.conns[i])
  }

  /** The invariant of the event loop. */
  predicate Inv(w: World) {
    AllOk(w) && forall i | 0 <= i < |w.conns| :: Resting(w.conns[i])
  }

  // ---------- Steps of one connection ----------

  lemma {:induction false} OutputAppended(c: Conn, m: Message)
    requires OutputKept(c) && FramesSane(c) && Sane(m)
    ensures OutputKept(Enqueue(c, m)) && FramesSane(Enqueue(c, m))
  {
    ConcatOne(c.trail.enqueued, m);
    var x, y, z := c.trail.written, c.outgoing, Serialize(m);
    assert x + (y + z) == (x + y) + z;
  }

  lemma {:induction false} NotificationAppended(c: Conn, m: Message)
    requires AnswersMatch(c) && IsNotification(m)
    ensures AnswersMatch(Enqueue(c, m))
  {
  }

  lemma {:induction false} OrderAppended(log: seq<Message>, c: Conn, m: Message)
    requires InOrder(log, c) && (IsWorld(m) ==> c.status.auth)
    ensures InOrder(if IsWorld(m) then log + [m] else log, Enqueue(c, m))
  {
    WorldsSnoc(c.trail.enqueued, m);
    if c.trail.session.Member? {
      var s := c.trail.session.since;
      assert (log + [m])[s..] == log[s..] + [m];
    }
  }

  lemma {:induction false} EnqueueKeeps(db: Database, log: seq<Message>, c: Conn, m: Message)
    requires ConnOk(db, log, c) && Sane(m) && IsNotification(m) && c.status.auth
    ensures ConnOk(db, if IsWorld(m) then log + [m] else log, Enqueue(c, m))
  {
    OutputAppended(c, m);
    NotificationAppended(c, m);
    OrderAppended(log, c, m);
  }

  lemma {:induction false} NotifyKeeps(db: Database, log: seq<Message>, c: Conn, m: Message)
    requires ConnOk(db, log, c) && Resting(c) && Sane(m) && IsNotification(m) && c.status.auth
    ensures ConnOk(db, if IsWorld(m) then log + [m] else log, Notify(c, m))
    ensures Resting(Notify(c, m))
  {
    EnqueueKeeps(db, log, c, m);
  }

  /** Broadcasts accepted while a connection is not authenticated do not concern it. */
  lemma {:induction false} LogGrows(db: Database, log: seq<Message>, c: Conn, m: Message)
    requires ConnOk(db, log, c) && !c.status.auth
    ensures ConnOk(db, log + [m], c)
  {
    if c.trail.session.Former? {
      var s, u := c.trail.session.since, c.trail.session.until;
      assert (log + [m])[s..u] == log[s..u];
    }
  }

  lemma {:induction false} AccountsGrow(db: Database, log: seq<Message>, c: Conn, row: Row)
    requires ConnOk(db, log, c)
    ensures ConnOk(Database(db.rows + [row], db.nextRowid + 1), log, c)
  {
    if c.status.auth {
      var r :| r in db.rows && UserId(r) == c.userId && r.name == c.username;
      assert r in db.rows + [row];
    }
  }

  /** Serving a request: its answer is the next frame, and a world broadcast is its own answer. */
  lemma {:induction false} AnswerKeeps(db: Database, log: seq<Message>, c: Conn, request: Message, response: Message)
    requires ConnOk(db, log, c)
    requires Examine(c.incoming) == Progress.Ready(request)
    requires Sane(response) && response.kind == request.kind
    requires IsWorld(response) ==> c.status.auth
    ensures ConnOk(db, if IsWorld(response) then log + [response] else log, Answer(c, request, response))
  {
    var t := c.trail;
    var d := c.(incoming := c.incoming[HEADER_SIZE + |request.payload|..],
                trail := t.(served := t.served + [request], replies := t.replies + [|t.enqueued|]));
    assert Answer(c, request, response) == Enqueue(d, response);
    OutputAppended(d, response);
    OrderAppended(log, d, response);
    AnswerAppended(c, d, request, response);
    InputServed(c, d, request);
  }

  lemma {:induction false} InputServed(c: Conn, d: Conn, request: Message)
    requires InputKept(c) && Examine(c.incoming) == Progress.Ready(request)
    requires d.incoming == c.incoming[HEADER_SIZE + |request.payload|..]
    requires d.trail.received == c.trail.received && d.trail.served == c.trail.served + [request]
    ensures InputKept(d)
  {
    var served, rest := c.trail.served, Decode(d.incoming).frames;
    assert served + ([request] + rest) == (served + [request]) + rest;
  }

  lemma {:induction false} AnswerAppended(c: Conn, d: Conn, request: Message, response: Message)
    requires AnswersMatch(c) && response.kind == request.kind
    requires d.trail.served == c.trail.served + [request] && d.trail.enqueued == c.trail.enqueued
    requires d.trail.replies == c.trail.replies + [|c.trail.enqueued|]
    ensures AnswersMatch(Enqueue(d, response))
  {
    var rs := c.trail.replies;
    assert (rs + [|c.trail.enqueued|])[|rs|] == |c.trail.enqueued|;
  }

  lemma {:induction false} ArrivedKeeps(db: Database, log: seq<Message>, c: Conn, bytes: seq<byte>)
    requires ConnOk(db, log, c)
    ensures ConnOk(db, log, Arrived(c, bytes))
  {
    DecodeExtends(c.trail.served, c.trail.received, c.incoming, bytes);
  }

  lemma {:induction false} FlushedKeeps(db: Database, log: seq<Message>, c: Conn, n: nat)
    requires ConnOk(db, log, c) && n <= |c.outgoing|
    ensures ConnOk(db, log, Flushed(c, n))
  {
    assert c.trail.written + c.outgoing[..n] + c.outgoing[n..] == c.trail.written + c.outgoing;
  }

  lemma {:induction false} StateKeeps(db: Database, log: seq<Message>, c: Conn, next: Mode)
    requires ConnOk(db, log, c)
    ensures ConnOk(db, log, SetState(c, next)) && ConnOk(db, log, Aborted(c))
  {
  }

  lemma {:induction false} RemovedKeeps(db: Database, log: seq<Message>, c: Conn)
    requires ConnOk(db, log, c)
    ensures ConnOk(db, log, Removed(c, |log|))
  {
    if c.trail.session.Member? {
      var s := c.trail.session.since;
      assert log[s..] == log[s..|log|];
    }
  }

  /** Replacing one slot by a good one. */
  lemma {:induction false} PutKeeps(w: World, fd: nat, c: Conn)
    requires fd < |w.conns| && AllOk(w) && OthersRest(w, fd) && ConnOk(w.db, w.accepted, c)
    requires c.trail.used ==> fd in w.handed
    ensures AllOk(Put(w, fd, c)) && OthersRest(Put(w, fd, c), fd)
    ensures Resting(c) ==> Inv(Put(w, fd, c))
  {
  }
}
