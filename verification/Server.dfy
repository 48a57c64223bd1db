/**
 * The server as a transition system. A connection holds one slot of the source's
 * parallel vectors, the kernel's epoll interest in its descriptor, and a trail of
 * what has happened to it; the trail records and never decides.
 */
module Server {
  import opened Bytes
  import opened Frames
  import opened Payloads
  import opened Flags
  import opened Accounts

  datatype Interest = Unwatched | Readable | Writable

  /** When, in terms of the log of accepted world broadcasts, the connection was authenticated. */
  datatype Session = Anonymous | Member(since: nat) | Former(since: nat, until: nat)

  datatype Trail = Trail(
    used: bool,             // an accepted descriptor was registered here
    aborted: bool,          // end of file, a failed call or EPOLLERR was seen
    received: seq<byte>,    // every byte read
    served: seq<Message>,   // every request answered
    enqueued: seq<Message>, // every message appended to the outgoing buffer
    replies: seq<nat>,      // the positions in `enqueued` of the answers to `served`
    written: seq<byte>,     // every byte the socket took
    session: Session)

  const NO_TRAIL := Trail(false, false, [], [], [], [], [], Anonymous)

  datatype Conn = Conn(
    status: Status, incoming: seq<byte>, outgoing: seq<byte>, userId: u32, username: Text,
    interest: Interest, trail: Trail)

  /** `accepted` is the log of world broadcasts; `handed` holds every descriptor `accept` has returned. */
  datatype World = World(conns: seq<Conn>, db: Database, accepted: seq<Message>, handed: set<nat>)

  // ---------- Connections ----------

  datatype Mode = Reading | Writing | Closing

  /** EPOLL_CTL_MOD on a descriptor that is not registered fails and is only logged. */
  function Rewatch(i: Interest, wanted: Interest): Interest {
    if i.Unwatched? then i else wanted
  }

  function SetState(c: Conn, next: Mode): Conn {
    match next
    case Reading =>
      c.(status := c.status.(wantRead := true, wantWrite := false), interest := Rewatch(c.interest, Readable))
    case Writing =>
      c.(status := c.status.(wantRead := false, wantWrite := true), interest := Rewatch(c.interest, Writable))
    case Closing => c.(status := c.status.(wantClose := true))
  }

  function Enqueue(c: Conn, m: Message): Conn {
    c.(outgoing := c.outgoing + Serialize(m), trail := c.trail.(enqueued := c.trail.enqueued + [m]))
  }

  function Notify(c: Conn, m: Message): Conn {
    SetState(Enqueue(c, m), Writing)
  }

  /** Removes the request from the incoming buffer and appends its answer to the outgoing one. */
  function Answer(c: Conn, request: Message, response: Message): Conn
    requires |c.incoming| >= HEADER_SIZE + |request.payload|
  {
    Enqueue(c.(incoming := c.incoming[HEADER_SIZE + |request.payload|..],
               trail := c.trail.(served := c.trail.served + [request],
                                 replies := c.trail.replies + [|c.trail.enqueued|])),
            response)
  }

  function Arrived(c: Conn, bytes: seq<byte>): Conn {
    c.(incoming := c.incoming + bytes, trail := c.trail.(received := c.trail.received + bytes))
  }

  function Aborted(c: Conn): Conn {
    c.(trail := c.trail.(aborted := true))
  }

  function Authenticated(c: Conn, u: User, log: nat): Conn {
    c.(userId := u.id, username := u.name, status := c.status.(auth := true),
       trail := c.trail.(session := if c.trail.session.Member? then c.trail.session else Member(log)))
  }

  /** add_connection resets the flags and nothing else. */
  function Opened(c: Conn): Conn {
    c.(status := IDLE.(active := true, wantRead := true), interest := Readable, trail := c.trail.(used := true))
  }

  /** remove_connection likewise. */
  function Removed(c: Conn, log: nat): Conn {
    c.(status := IDLE, interest := Unwatched,
       trail := c.trail.(session := if c.trail.session.Member? then Former(c.trail.session.since, log)
                                    else c.trail.session))
  }

  /** The table with one slot replaced. */
  function Put(w: World, fd: nat, c: Conn): World
    requires fd < |w.conns|
  {
    w.(conns := w.conns[fd := c])
  }

  // ---------- Requests ----------

  datatype Outcome = Outcome(world: World, response: Message)

  function RegisterUser(w: World, payload: seq<byte>, f: Faults): Outcome {
    match ParseCredentials(payload)
    case None => Outcome(w, StatusOnly(REGISTER, MALFORMED))
    case Some(c) =>
      if f.lookup then Outcome(w, StatusOnly(REGISTER, INTERNAL))
      else if Lookup(w.db.rows, Lower(c.username)).Some? then Outcome(w, StatusOnly(REGISTER, USER_EXISTS))
      else match Insert(w.db, c.username, c.password, f.insert)
        case None => Outcome(w, StatusOnly(REGISTER, INTERNAL))
        case Some(db) =>
          var id := UserId(NewRow(w.db, c.username, c.password));
          Outcome(w.(db := db), AccountMessage(REGISTER, Account(id, c.username)))
  }

  function LoginUser(w: World, fd: nat, payload: seq<byte>, f: Faults): Outcome
    requires fd < |w.conns|
  {
    match ParseCredentials(payload)
    case None => Outcome(w, StatusOnly(LOGIN, MALFORMED))
    case Some(c) =>
      if f.lookup then Outcome(w, StatusOnly(LOGIN, INTERNAL))
      else match Lookup(w.db.rows, Lower(c.username))
        case None => Outcome(w, StatusOnly(LOGIN, USER_NOT_FOUND))
        case Some(u) =>
          if u.password != c.password then Outcome(w, StatusOnly(LOGIN, INVALID_CREDENTIALS))
          else
            Outcome(Put(w, fd, Authenticated(w.conns[fd], u, |w.accepted|)),
                    AccountMessage(LOGIN, Account(u.id, u.name)))
  }

  /** Broadcasts look at IS_AUTH only. */
  function FanOut(conns: seq<Conn>, fd: nat, m: Message): (r: seq<Conn>)
    ensures |r| == |conns|
    ensures forall i | 0 <= i < |conns| ::
              r[i] == if conns[i].status.auth && i != fd then Notify(conns[i], m) else conns[i]
  {
    seq(|conns|, i requires 0 <= i < |conns| =>
      if conns[i].status.auth && i != fd then Notify(conns[i], m) else conns[i])
  }

  predicate IsPeer(conns: seq<Conn>, fd: nat, name: Text, i: nat)
    requires i < |conns|
  {
    conns[i].status.auth && i != fd && conns[i].username == name
  }

  /** The first slot, from `from` on, that a private message for `name` goes to. */
  function Recipient(conns: seq<Conn>, fd: nat, name: Text, from: nat): (r: Option<nat>)
    requires from <= |conns|
    ensures r.None? ==> forall i | from <= i < |conns| :: !IsPeer(conns, fd, name, i)
    ensures r.Some? ==> from <= r.value < |conns| && IsPeer(conns, fd, name, r.value)
    ensures r.Some? ==> forall i | from <= i < r.value :: !IsPeer(conns, fd, name, i)
    decreases |conns| - from
  {
    if from == |conns| then None
    else if IsPeer(conns, fd, name, from) then Some(from)
    else Recipient(conns, fd, name, from + 1)
  }

  /** A builder's -1 would travel as response code 255. */
  const BUILD_FAILED: byte := 255

  function WorldRequest(w: World, fd: nat, payload: seq<byte>): Outcome
    requires fd < |w.conns|
  {
    match ParseWorld(payload)
    case None => Outcome(w, StatusOnly(CHAT, MALFORMED))
    case Some(b) =>
      if b.content == [] then Outcome(w, StatusOnly(CHAT, MALFORMED))
      else
        var m := WorldMessage(b.(sender := w.conns[fd].username));
        if |m.payload| > MAX_PAYLOAD then Outcome(w, StatusOnly(CHAT, BUILD_FAILED))
        else Outcome(w.(conns := FanOut(w.conns, fd, m), accepted := w.accepted + [m]), m)
  }

  function P2pRequest(w: World, fd: nat, payload: seq<byte>): Outcome
    requires fd < |w.conns|
  {
    match ParseP2p(payload)
    case None => Outcome(w, StatusOnly(CHAT, MALFORMED))
    case Some(b) =>
      if b.content == [] || w.conns[fd].username == b.recipient then Outcome(w, StatusOnly(CHAT, MALFORMED))
      else
        var m := P2pMessage(b.(sender := w.conns[fd].username));
        if |m.payload| > MAX_PAYLOAD then Outcome(w, StatusOnly(CHAT, BUILD_FAILED))
        else match Recipient(w.conns, fd, b.recipient, 0)
          case None => Outcome(w, StatusOnly(CHAT, USER_NOT_FOUND))
          case Some(i) => Outcome(Put(w, i, Notify(w.conns[i], m)), m)
  }

  /** `peek` is the byte after the header, which is not part of the request when its payload is empty. */
  function Broadcast(w: World, fd: nat, payload: seq<byte>, peek: byte): Outcome
    requires fd < |w.conns|
  {
    if !w.conns[fd].status.auth then Outcome(w, StatusOnly(CHAT, INVALID_CREDENTIALS))
    else if peek == WORLD then WorldRequest(w, fd, payload)
    else if peek == P2P then P2pRequest(w, fd, payload)
    else Outcome(w, StatusOnly(CHAT, MALFORMED))
  }

  function Handle(w: World, fd: nat, m: Message, peek: byte, f: Faults): (r: Outcome)
    requires fd < |w.conns|
    ensures |r.world.conns| == |w.conns| && r.world.conns[fd].incoming == w.conns[fd].incoming
  {
    if m.kind == REGISTER then RegisterUser(w, m.payload, f)
    else if m.kind == LOGIN then LoginUser(w, fd, m.payload, f)
    else if m.kind == CHAT then Broadcast(w, fd, m.payload, peek)
    else Outcome(w, StatusOnly(m.kind, UNKNOWN_COMMAND))
  }

  datatype Turn = Turn(world: World, served: bool)

  function TryOne(w: World, fd: nat, f: Faults): (t: Turn)
    requires fd < |w.conns|
    ensures |t.world.conns| == |w.conns|
    ensures t.served ==> |t.world.conns[fd].incoming| + HEADER_SIZE <= |w.conns[fd].incoming|
  {
    match Examine(w.conns[fd].incoming)
    case NeedMore => Turn(w, false)
    case TooBig => Turn(Put(w, fd, SetState(w.conns[fd], Closing)), false)
    case Ready(m) =>
      var o := Handle(w, fd, m, w.conns[fd].incoming[HEADER_SIZE], f);
      Turn(Put(o.world, fd, Answer(o.world.conns[fd], m, o.response)), true)
  }

  // ---------- Events ----------

  const NO_FAULTS := Faults(false, false)

  function FirstFaults(fs: seq<Faults>): Faults {
    if fs == [] then NO_FAULTS else fs[0]
  }

  function LaterFaults(fs: seq<Faults>): seq<Faults> {
    if fs == [] then fs else fs[1..]
  }

  /** The request loop; it ends because every served request takes at least a header off the buffer. */
  function Drain(w: World, fd: nat, fs: seq<Faults>): (r: World)
    requires fd < |w.conns|
    ensures |r.conns| == |w.conns|
    decreases |w.conns[fd].incoming|
  {
    var t := TryOne(w, fd, FirstFaults(fs));
    if t.served then Drain(t.world, fd, LaterFaults(fs)) else t.world
  }

  function AllBytes(chunks: seq<seq<byte>>): seq<byte> {
    if chunks == [] then [] else chunks[0] + AllBytes(chunks[1..])
  }

  /** How the reads of one event end. */
  datatype ReadEnd = WouldBlock | EndOfFile | ReadError

  function HandleRead(w: World, fd: nat, chunks: seq<seq<byte>>, end: ReadEnd, fs: seq<Faults>): (r: World)
    requires fd < |w.conns|
    ensures |r.conns| == |w.conns|
  {
    var c := Arrived(w.conns[fd], AllBytes(chunks));
    if !end.WouldBlock? then Put(w, fd, Aborted(SetState(c, Closing)))
    else
      var r := Drain(Put(w, fd, c), fd, fs);
      if r.conns[fd].outgoing != [] then Put(r, fd, SetState(r.conns[fd], Writing)) else r
  }

  function Min(a: nat, b: nat): nat {
    if a < b then a else b
  }

  function Flushed(c: Conn, n: nat): Conn
    requires n <= |c.outgoing|
  {
    c.(outgoing := c.outgoing[n..], trail := c.trail.(written := c.trail.written + c.outgoing[..n]))
  }

  /** Each call takes up to `counts[0]` bytes; after the last one the next call would block or fails. */
  function Flush(c: Conn, counts: seq<nat>, fails: bool): Conn
    decreases |counts|
  {
    if counts == [] then if fails then Aborted(SetState(c, Closing)) else c
    else
      var d := Flushed(c, Min(counts[0], |c.outgoing|));
      if d.outgoing == [] then SetState(d, Reading) else Flush(d, counts[1..], fails)
  }

  /** What the kernel does to one descriptor during one event. */
  datatype Io = Io(
    chunks: seq<seq<byte>>, end: ReadEnd, faults: seq<Faults>, counts: seq<nat>, writeFails: bool, error: bool)

  /** The second half of an event: write if something waits, then close if asked to. */
  function WriteThenClose(w: World, fd: nat, io: Io): (r: World)
    requires fd < |w.conns|
    ensures |r.conns| == |w.conns|
  {
    var c := w.conns[fd];
    var d := if c.status.wantWrite then Flush(c, io.counts, io.writeFails) else c;
    var e := if io.error then Aborted(d) else d;
    Put(w, fd, if io.error || d.status.wantClose then Removed(e, |w.accepted|) else d)
  }

  /** The body of the event loop for a connection. */
  function Dispatch(w: World, fd: nat, io: Io): (r: World)
    requires fd < |w.conns|
    ensures |r.conns| == |w.conns|
  {
    WriteThenClose(if w.conns[fd].status.wantRead then HandleRead(w, fd, io.chunks, io.end, io.faults) else w, fd, io)
  }

  /** A slot as `std::vector::resize` leaves it. */
  const BLANK := Conn(IDLE, [], [], 0, [], Unwatched, NO_TRAIL)

  function Grow(conns: seq<Conn>, size: nat): (r: seq<Conn>)
    ensures |r| == if |conns| < size then size else |conns|
    ensures forall i | 0 <= i < |conns| :: r[i] == conns[i]
    ensures forall i | |conns| <= i < |r| :: r[i] == BLANK
  {
    if |conns| < size then conns + seq(size - |conns|, _ => BLANK) else conns
  }

  /** A new descriptor; `added` tells whether epoll took it. */
  function AddConnection(w: World, fd: nat, added: bool): (r: World)
    ensures |w.conns| <= |r.conns|
  {
    if !added then w.(handed := w.handed + {fd})
    else
      var conns := Grow(w.conns, fd + 1);
      w.(conns := conns[fd := Opened(conns[fd])], handed := w.handed + {fd})
  }

  datatype Event = Connected(fd: nat, added: bool) | Polled(fd: nat, io: Io)

  /**
   * A descriptor that is never closed is never handed out again, and epoll reports
   * only the descriptors it watches.
   */
  predicate Enabled(w: World, e: Event) {
    match e
    case Connected(fd, _) => fd !in w.handed
    case Polled(fd, _) => fd < |w.conns| && !w.conns[fd].interest.Unwatched?
  }

  function Step(w: World, e: Event): (r: World)
    requires Enabled(w, e)
    ensures |w.conns| <= |r.conns|
  {
    match e
    case Connected(fd, added) => AddConnection(w, fd, added)
    case Polled(fd, io) => Dispatch(w, fd, io)
  }

  const INITIAL_CAPACITY := 10000

  /** "user". */
  const DEFAULT_NAME: Text := [117, 115, 101, 114]

  function Start(db: Database): World {
    World(seq(INITIAL_CAPACITY, _ => BLANK.(username := DEFAULT_NAME)), db, [], {})
  }

  predicate Possible(w: World, es: seq<Event>)
    decreases |es|
  {
    es != [] ==> Enabled(w, es[0]) && Possible(Step(w, es[0]), es[1..])
  }

  function Run(w: World, es: seq<Event>): (r: World)
    requires Possible(w, es)
    ensures |w.conns| <= |r.conns|
    decreases |es|
  {
    if es == [] then w else Run(Step(w, es[0]), es[1..])
  }

  /** Every state the server can be in between two events. */
  ghost predicate Reachable(w: World) {
    exists db, es :: AccountsOk(db) && Possible(Start(db), es) && Run(Start(db), es) == w
  }
}
