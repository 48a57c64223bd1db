/** Where things come from: the identity of a connection, the entries of the log, and the answers to requests. */
module Provenance {
  import opened Bytes
  import opened Frames
  import opened Payloads
  import opened Accounts
  import opened Server
  import opened Invariants
  import opened Preservation
  import opened Histories

  // ---------- Identities ----------

  /** A login request whose credentials are those of the stored account. */
  predicate Admits(rows: seq<Row>, m: Message, id: u32, name: Text) {
    && m.kind == LOGIN && ParseCredentials(m.payload).Some?
    && var c := ParseCredentials(m.payload).value;
       exists r | r in rows ::
         EqualUpToCase(r.name, CText(c.username)) && r.password == c.password && UserId(r) == id && r.name == name
  }

  /** Who is authenticated once sent a login request that admits to the account the slot carries. */
  predicate Credible(rows: seq<Row>, c: Conn) {
    c.status.auth ==>
      exists k | 0 <= k < |c.trail.served| :: Admits(rows, c.trail.served[k], c.userId, c.username)
  }

  predicate SameIdentity(c: Conn, d: Conn) {
    d.status.auth == c.status.auth && d.userId == c.userId && d.username == c.username
  }

  lemma {:induction false} AdmitsKept(rows: seq<Row>, more: seq<Row>, m: Message, id: u32, name: Text)
    requires Admits(rows, m, id, name) && rows <= more
    ensures Admits(more, m, id, name)
  {
    var c := ParseCredentials(m.payload).value;
    var r :| && r in rows && EqualUpToCase(r.name, CText(c.username)) && r.password == c.password
             && UserId(r) == id && r.name == name;
    assert r in more;
  }

  lemma {:induction false} CredibleKept(rows: seq<Row>, more: seq<Row>, c: Conn, d: Conn)
    requires Credible(rows, c) && rows <= more && c.trail.served <= d.trail.served
    requires d.status.auth ==> SameIdentity(c, d)
    ensures Credible(more, d)
  {
    if d.status.auth {
      var k :| 0 <= k < |c.trail.served| && Admits(rows, c.trail.served[k], c.userId, c.username);
      AdmitsKept(rows, more, c.trail.served[k], c.userId, c.username);
      assert d.trail.served[k] == c.trail.served[k];
    }
  }

  /** Only a login request changes who its sender is, and only to the account its credentials are those of. */
  lemma {:induction false} HandleIdentity(w: World, fd: nat, m: Message, peek: byte, f: Faults)
    requires fd < |w.conns|
    ensures var d := Handle(w, fd, m, peek, f).world.conns[fd];
            SameIdentity(w.conns[fd], d) || Admits(w.db.rows, m, d.userId, d.username)
  {
    if m.kind == LOGIN {
      LoginIdentity(w, fd, m, f);
    } else if m.kind == CHAT {
      ChatIdentity(w, fd, m.payload, peek);
    }
  }

  lemma {:induction false} LoginIdentity(w: World, fd: nat, m: Message, f: Faults)
    requires fd < |w.conns| && m.kind == LOGIN
    ensures var d := LoginUser(w, fd, m.payload, f).world.conns[fd];
            SameIdentity(w.conns[fd], d) || Admits(w.db.rows, m, d.userId, d.username)
  {
    var parsed := ParseCredentials(m.payload);
    if parsed.Some? && Lookup(w.db.rows, Lower(parsed.value.username)).Some? {
      var c := parsed.value;
      var u := Lookup(w.db.rows, Lower(c.username)).value;
      LookupExact(w.db.rows, c.username);
      var r :| && r in w.db.rows && EqualUpToCase(r.name, CText(c.username))
               && u == User(UserId(r), r.name, r.password);
      assert u.password == c.password ==> Admits(w.db.rows, m, u.id, u.name);
    }
  }

  lemma {:induction false} ChatIdentity(w: World, fd: nat, payload: seq<byte>, peek: byte)
    requires fd < |w.conns|
    ensures Broadcast(w, fd, payload, peek).world.conns[fd] == w.conns[fd]
  {
  }

  lemma {:induction false} AnsweredCredible(w: World, fd: nat, m: Message, peek: byte, f: Faults)
    requires InService(w, fd) && Credible(w.db.rows, w.conns[fd])
    requires |w.conns[fd].incoming| >= HEADER_SIZE + |m.payload|
    ensures var o := Handle(w, fd, m, peek, f);
            Credible(o.world.db.rows, Answer(o.world.conns[fd], m, o.response))
  {
    var o := Handle(w, fd, m, peek, f);
    var d := Answer(o.world.conns[fd], m, o.response);
    HandleGrew(w, fd, m, peek, f);
    HandleIdentity(w, fd, m, peek, f);
    assert d.trail.served == w.conns[fd].trail.served + [m] by {
      HandledBuffers(w, fd, m, peek, f);
    }
    if SameIdentity(w.conns[fd], d) {
      CredibleKept(w.db.rows, o.world.db.rows, w.conns[fd], d);
    } else {
      AdmitsKept(w.db.rows, o.world.db.rows, m, d.userId, d.username);
      assert d.trail.served[|w.conns[fd].trail.served|] == m;
    }
  }

  // ---------- The log ----------

  /** A world broadcast as a client reads it: content within its limit, from the name of a stored account. */
  predicate Genuine(rows: seq<Row>, m: Message) {
    && ParseWorld(m.payload).Some?
    && var b := ParseWorld(m.payload).value;
       m == WorldMessage(b) && 0 < |b.content| <= MAX_CONTENT && exists r | r in rows :: r.name == b.sender
  }

  predicate LogGenuine(rows: seq<Row>, log: seq<Message>) {
    forall k | 0 <= k < |log| :: Genuine(rows, log[k])
  }

  lemma {:induction false} LogKept(rows: seq<Row>, more: seq<Row>, log: seq<Message>)
    requires LogGenuine(rows, log) && rows <= more
    ensures LogGenuine(more, log)
  {
    forall k | 0 <= k < |log| ensures Genuine(more, log[k]) {
      var r :| r in rows && r.name == ParseWorld(log[k].payload).value.sender;
      assert r in more;
    }
  }

  lemma {:induction false} BuiltGenuine(rows: seq<Row>, b: WorldBroadcast)
    requires WorldFits(b) && b.content != [] && exists r :: r in rows && r.name == b.sender
    ensures Genuine(rows, WorldMessage(b))
  {
    WorldRoundTrip(b);
  }

  lemma {:induction false} WorldGenuine(w: World, fd: nat, payload: seq<byte>)
    requires InService(w, fd) && w.conns[fd].status.auth && LogGenuine(w.db.rows, w.accepted)
    ensures var v := WorldRequest(w, fd, payload).world; LogGenuine(v.db.rows, v.accepted)
  {
    if ParseWorld(payload).Some? && ParseWorld(payload).value.content != [] {
      var b := ParseWorld(payload).value.(sender := w.conns[fd].username);
      ParsedInLimit(payload);
      assert ConnOk(w.db, w.accepted, w.conns[fd]);
      BuiltGenuine(w.db.rows, b);
    }
  }

  lemma {:induction false} ChatGenuine(w: World, fd: nat, payload: seq<byte>, peek: byte)
    requires InService(w, fd) && LogGenuine(w.db.rows, w.accepted)
    ensures var v := Broadcast(w, fd, payload, peek).world; LogGenuine(v.db.rows, v.accepted)
  {
    if w.conns[fd].status.auth && peek == WORLD {
      WorldGenuine(w, fd, payload);
    } else {
      var v := Broadcast(w, fd, payload, peek).world;
      assert v.db == w.db && v.accepted == w.accepted;
    }
  }

  lemma {:induction false} RegisterGenuine(w: World, payload: seq<byte>, f: Faults)
    requires LogGenuine(w.db.rows, w.accepted)
    ensures var v := RegisterUser(w, payload, f).world; LogGenuine(v.db.rows, v.accepted)
  {
    var v := RegisterUser(w, payload, f).world;
    assert w.db.rows <= v.db.rows && v.accepted == w.accepted;
    LogKept(w.db.rows, v.db.rows, w.accepted);
  }

  lemma {:induction false} LoginGenuine(w: World, fd: nat, payload: seq<byte>, f: Faults)
    requires fd < |w.conns|
    ensures var v := LoginUser(w, fd, payload, f).world; v.db == w.db && v.accepted == w.accepted
  {
  }

  lemma {:induction false} HandleGenuine(w: World, fd: nat, m: Message, peek: byte, f: Faults)
    requires InService(w, fd) && LogGenuine(w.db.rows, w.accepted)
    ensures var v := Handle(w, fd, m, peek, f).world; LogGenuine(v.db.rows, v.accepted)
  {
    if m.kind == REGISTER {
      RegisterGenuine(w, m.payload, f);
    } else if m.kind == LOGIN {
      LoginGenuine(w, fd, m.payload, f);
    } else if m.kind == CHAT {
      ChatGenuine(w, fd, m.payload, peek);
    }
  }

  // ---------- Both, over events ----------

  predicate Grounded(w: World) {
    && LogGenuine(w.db.rows, w.accepted)
    && forall i | 0 <= i < |w.conns| :: Credible(w.db.rows, w.conns[i])
  }

  lemma {:induction false} OthersGrounded(w: World, v: World, fd: nat)
    requires Grounded(w) && OthersNotified(w, v, fd) && w.db.rows <= v.db.rows && fd < |w.conns|
    requires LogGenuine(v.db.rows, v.accepted) && Credible(v.db.rows, v.conns[fd])
    ensures Grounded(v)
  {
    forall i | 0 <= i < |v.conns| && i != fd ensures Credible(v.db.rows, v.conns[i]) {
      assert OnlyNotified(w.conns[i], v.conns[i]);
      CredibleKept(w.db.rows, v.db.rows, w.conns[i], v.conns[i]);
    }
  }

  lemma {:induction false} PutGrounded(w: World, fd: nat, c: Conn)
    requires Grounded(w) && fd < |w.conns| && w.conns[fd].trail.served <= c.trail.served
    requires c.status.auth ==> SameIdentity(w.conns[fd], c)
    ensures Grounded(Put(w, fd, c))
  {
    CredibleKept(w.db.rows, w.db.rows, w.conns[fd], c);
  }

  lemma {:induction false} TryOneGrounded(w: World, fd: nat, f: Faults)
    requires InService(w, fd) && Grounded(w)
    ensures Grounded(TryOne(w, fd, f).world)
  {
    var c := w.conns[fd];
    match Examine(c.incoming)
    case NeedMore =>
    case TooBig => PutGrounded(w, fd, SetState(c, Closing));
    case Ready(m) =>
      var peek := c.incoming[HEADER_SIZE];
      var o := Handle(w, fd, m, peek, f);
      AnsweredCredible(w, fd, m, peek, f);
      HandleGenuine(w, fd, m, peek, f);
      HandleGrew(w, fd, m, peek, f);
      HandleNotified(w, fd, m, peek, f);
      PutNotified(w, o.world, fd, Answer(o.world.conns[fd], m, o.response));
      OthersGrounded(w, TryOne(w, fd, f).world, fd);
  }

  lemma {:induction false} DrainGrounded(w: World, fd: nat, fs: seq<Faults>)
    requires InService(w, fd) && Grounded(w)
    ensures Grounded(Drain(w, fd, fs))
    decreases |w.conns[fd].incoming|
  {
    var t := TryOne(w, fd, FirstFaults(fs));
    TryOneGrounded(w, fd, FirstFaults(fs));
    if t.served {
      TryOneKeeps(w, fd, FirstFaults(fs));
      DrainGrounded(t.world, fd, LaterFaults(fs));
    }
  }

  lemma {:induction false} HandleReadGrounded(w: World, fd: nat, chunks: seq<seq<byte>>, end: ReadEnd, fs: seq<Faults>)
    requires InService(w, fd) && Grounded(w)
    ensures Grounded(HandleRead(w, fd, chunks, end, fs))
  {
    var c := Arrived(w.conns[fd], AllBytes(chunks));
    if end.WouldBlock? {
      ArrivedInService(w, fd, chunks);
      PutGrounded(w, fd, c);
      DrainGrounded(Put(w, fd, c), fd, fs);
      var r := Drain(Put(w, fd, c), fd, fs);
      PutGrounded(r, fd, SetState(r.conns[fd], Writing));
    } else {
      PutGrounded(w, fd, Aborted(SetState(c, Closing)));
    }
  }

  lemma {:induction false} FlushSameIdentity(c: Conn, counts: seq<nat>, fails: bool)
    ensures var d := Flush(c, counts, fails); SameIdentity(c, d) && d.trail.served == c.trail.served
    decreases |counts|
  {
    if counts != [] {
      var d := Flushed(c, Min(counts[0], |c.outgoing|));
      if d.outgoing != [] {
        FlushSameIdentity(d, counts[1..], fails);
      }
    }
  }

  lemma {:induction false} WriteThenCloseGrounded(w: World, fd: nat, io: Io)
    requires fd < |w.conns| && Grounded(w)
    ensures Grounded(WriteThenClose(w, fd, io))
  {
    FlushSameIdentity(w.conns[fd], io.counts, io.writeFails);
    PutGrounded(w, fd, WriteThenClose(w, fd, io).conns[fd]);
  }

  lemma {:induction false} DispatchGrounded(w: World, fd: nat, io: Io)
    requires Inv(w) && Grounded(w) && fd < |w.conns| && !w.conns[fd].interest.Unwatched?
    ensures Grounded(Dispatch(w, fd, io))
  {
    var r := if w.conns[fd].status.wantRead then HandleRead(w, fd, io.chunks, io.end, io.faults) else w;
    if w.conns[fd].status.wantRead {
      HandleReadGrounded(w, fd, io.chunks, io.end, io.faults);
    }
    WriteThenCloseGrounded(r, fd, io);
  }

  lemma {:induction false} StepGrounded(w: World, e: Event)
    requires Inv(w) && Grounded(w) && Enabled(w, e)
    ensures Grounded(Step(w, e))
  {
    match e
    case Connected(fd, added) =>
    case Polled(fd, io) => DispatchGrounded(w, fd, io);
  }

  lemma {:induction false} RunGrounded(w: World, es: seq<Event>)
    requires Inv(w) && Grounded(w) && Possible(w, es)
    ensures Grounded(Run(w, es))
    decreases |es|
  {
    if es != [] {
      StepGrounded(w, es[0]);
      StepKeeps(w, es[0]);
      RunGrounded(Step(w, es[0]), es[1..]);
    }
  }

  lemma {:induction false} ReachableGrounded(w: World)
    requires Reachable(w)
    ensures Grounded(w)
  {
    var db, es :| AccountsOk(db) && Possible(Start(db), es) && Run(Start(db), es) == w;
    StartOk(db);
    RunGrounded(Start(db), es);
  }

  // ---------- Answers ----------

  datatype Exchange = Exchange(request: Message, response: Message)

  /** Every request served on a connection, with what was enqueued in answer to it. */
  function Exchanges(c: Conn): (r: seq<Exchange>)
    requires AnswersMatch(c)
    ensures |r| == |c.trail.served|
    ensures forall k | 0 <= k < |r| :: r[k] == Exchange(c.trail.served[k], c.trail.enqueued[c.trail.replies[k]])
  {
    seq(|c.trail.served|, k requires 0 <= k < |c.trail.served| =>
      Exchange(c.trail.served[k], c.trail.enqueued[c.trail.replies[k]]))
  }

  /** The request served next, if any, with what its handler responds in the state it is served in. */
  function NextExchange(w: World, fd: nat, f: Faults): seq<Exchange>
    requires fd < |w.conns|
  {
    var c := w.conns[fd];
    match Examine(c.incoming)
    case Ready(m) => [Exchange(m, Handle(w, fd, m, c.incoming[HEADER_SIZE], f).response)]
    case _ => []
  }

  function DrainExchanges(w: World, fd: nat, fs: seq<Faults>): seq<Exchange>
    requires fd < |w.conns|
    decreases |w.conns[fd].incoming|
  {
    var t := TryOne(w, fd, FirstFaults(fs));
    NextExchange(w, fd, FirstFaults(fs)) + if t.served then DrainExchanges(t.world, fd, LaterFaults(fs)) else []
  }

  /** What one event makes the handlers respond to connection `i`. */
  function StepExchanges(w: World, e: Event, i: nat): seq<Exchange>
    requires Enabled(w, e)
  {
    match e
    case Connected(_, _) => []
    case Polled(fd, io) =>
      if fd == i && w.conns[fd].status.wantRead && io.end.WouldBlock? then
        DrainExchanges(Put(w, fd, Arrived(w.conns[fd], AllBytes(io.chunks))), fd, io.faults)
      else []
  }

  function RunExchanges(w: World, es: seq<Event>, i: nat): seq<Exchange>
    requires Possible(w, es)
    decreases |es|
  {
    if es == [] then [] else StepExchanges(w, es[0], i) + RunExchanges(Step(w, es[0]), es[1..], i)
  }

  /** Nothing was served; at most something was sent. */
  predicate Unanswered(c: Conn, d: Conn) {
    d.trail.served == c.trail.served && d.trail.replies == c.trail.replies && c.trail.enqueued <= d.trail.enqueued
  }

  lemma {:induction false} ExchangesKept(c: Conn, d: Conn)
    requires AnswersMatch(c) && AnswersMatch(d) && Unanswered(c, d)
    ensures Exchanges(d) == Exchanges(c)
  {
  }

  lemma {:induction false} TryOneExchanges(w: World, fd: nat, f: Faults)
    requires InService(w, fd)
    ensures var d := TryOne(w, fd, f).world.conns[fd];
            && AnswersMatch(w.conns[fd]) && AnswersMatch(d)
            && Exchanges(d) == Exchanges(w.conns[fd]) + NextExchange(w, fd, f)
  {
    var c, v := w.conns[fd], TryOne(w, fd, f).world;
    InServiceAnswers(w, fd);
    TryOneAnswers(w, fd, f);
    if Examine(c.incoming).Ready? {
      var m := Examine(c.incoming).frame;
      HandledBuffers(w, fd, m, c.incoming[HEADER_SIZE], f);
      AnswerExchanged(c, Handle(w, fd, m, c.incoming[HEADER_SIZE], f), m, v.conns[fd], fd);
    } else {
      ExchangesKept(c, v.conns[fd]);
    }
  }

  lemma {:induction false} InServiceAnswers(w: World, fd: nat)
    requires InService(w, fd)
    ensures AnswersMatch(w.conns[fd])
  {
    assert ConnOk(w.db, w.accepted, w.conns[fd]);
  }

  lemma {:induction false} TryOneAnswers(w: World, fd: nat, f: Faults)
    requires InService(w, fd)
    ensures AnswersMatch(TryOne(w, fd, f).world.conns[fd])
  {
    var v := TryOne(w, fd, f).world;
    TryOneKeeps(w, fd, f);
    assert ConnOk(v.db, v.accepted, v.conns[fd]);
  }

  lemma {:induction false} HandledBuffers(w: World, fd: nat, m: Message, peek: byte, f: Faults)
    requires InService(w, fd)
    ensures SameBuffers(w.conns[fd], Handle(w, fd, m, peek, f).world.conns[fd])
  {
    HandleHandled(w, fd, m, peek, f);
  }

  lemma {:induction false} AnswerExchanged(c: Conn, o: Outcome, m: Message, d: Conn, fd: nat)
    requires AnswersMatch(c) && AnswersMatch(d) && fd < |o.world.conns| && SameBuffers(c, o.world.conns[fd])
    requires |o.world.conns[fd].incoming| >= HEADER_SIZE + |m.payload| && d == Answer(o.world.conns[fd], m, o.response)
    ensures Exchanges(d) == Exchanges(c) + [Exchange(m, o.response)]
  {
  }

  lemma {:induction false} Regrouped(x: seq<Exchange>, y: seq<Exchange>, z: seq<Exchange>)
    ensures (x + y) + z == x + (y + z) && x + [] == x
  {
  }

  lemma {:induction false} DrainExchanged(w: World, fd: nat, fs: seq<Faults>)
    requires InService(w, fd)
    ensures var d := Drain(w, fd, fs).conns[fd];
            && AnswersMatch(w.conns[fd]) && AnswersMatch(d)
            && Exchanges(d) == Exchanges(w.conns[fd]) + DrainExchanges(w, fd, fs)
    decreases |w.conns[fd].incoming|
  {
    var f := FirstFaults(fs);
    var t := TryOne(w, fd, f);
    TryOneExchanges(w, fd, f);
    var x, y := Exchanges(w.conns[fd]), NextExchange(w, fd, f);
    if t.served {
      TryOneKeeps(w, fd, f);
      DrainExchanged(t.world, fd, LaterFaults(fs));
      Regrouped(x, y, DrainExchanges(t.world, fd, LaterFaults(fs)));
    } else {
      Regrouped(x, y, []);
    }
  }

  lemma {:induction false} FlushUnanswered(c: Conn, counts: seq<nat>, fails: bool)
    ensures Unanswered(c, Flush(c, counts, fails))
    decreases |counts|
  {
    if counts != [] {
      var d := Flushed(c, Min(counts[0], |c.outgoing|));
      if d.outgoing != [] {
        FlushUnanswered(d, counts[1..], fails);
      }
    }
  }

  lemma {:induction false} WriteThenCloseUnanswered(w: World, fd: nat, io: Io)
    requires fd < |w.conns|
    ensures Unanswered(w.conns[fd], WriteThenClose(w, fd, io).conns[fd])
  {
    FlushUnanswered(w.conns[fd], io.counts, io.writeFails);
  }

  /** The exchanges on a slot, if it is there and its trail is in order. */
  ghost function History(w: World, i: nat): seq<Exchange> {
    if i < |w.conns| && AnswersMatch(w.conns[i]) then Exchanges(w.conns[i]) else []
  }

  lemma {:induction false} HistoryKept(w: World, v: World, i: nat)
    requires Inv(w) && Inv(v) && i < |w.conns| && i < |v.conns| && Unanswered(w.conns[i], v.conns[i])
    ensures History(v, i) == History(w, i)
  {
    assert ConnOk(w.db, w.accepted, w.conns[i]) && ConnOk(v.db, v.accepted, v.conns[i]);
    ExchangesKept(w.conns[i], v.conns[i]);
  }

  /** A read event appends to the requester's exchanges just those of its request loop. */
  lemma {:induction false} HandleReadExchanged(w: World, fd: nat, chunks: seq<seq<byte>>, fs: seq<Faults>, d: Conn)
    requires InService(w, fd) && AnswersMatch(d)
    requires Unanswered(HandleRead(w, fd, chunks, WouldBlock, fs).conns[fd], d)
    ensures AnswersMatch(w.conns[fd])
    ensures Exchanges(d) == Exchanges(w.conns[fd]) +
                            DrainExchanges(Put(w, fd, Arrived(w.conns[fd], AllBytes(chunks))), fd, fs)
  {
    var v := Put(w, fd, Arrived(w.conns[fd], AllBytes(chunks)));
    ArrivedInService(w, fd, chunks);
    DrainExchanged(v, fd, fs);
    InServiceAnswers(w, fd);
    ExchangesKept(w.conns[fd], v.conns[fd]);
    ExchangesKept(Drain(v, fd, fs).conns[fd], d);
  }

  lemma {:induction false} DispatchExchanged(w: World, fd: nat, io: Io)
    requires Inv(w) && Enabled(w, Polled(fd, io))
    ensures History(Dispatch(w, fd, io), fd) == History(w, fd) + StepExchanges(w, Polled(fd, io), fd)
  {
    var v := Dispatch(w, fd, io);
    DispatchKeeps(w, fd, io);
    assert AnswersMatch(v.conns[fd]) by { assert ConnOk(v.db, v.accepted, v.conns[fd]); }
    var readable := w.conns[fd].status.wantRead;
    var r := if readable then HandleRead(w, fd, io.chunks, io.end, io.faults) else w;
    WriteThenCloseUnanswered(r, fd, io);
    if readable && io.end.WouldBlock? {
      HandleReadExchanged(w, fd, io.chunks, io.faults, v.conns[fd]);
    } else {
      HistoryKept(w, v, fd);
    }
  }

  lemma {:induction false} StepExchanged(w: World, e: Event, i: nat)
    requires Inv(w) && Enabled(w, e)
    ensures History(Step(w, e), i) == History(w, i) + StepExchanges(w, e, i)
  {
    StepKeeps(w, e);
    match e
    case Connected(fd, added) => ConnectedExchanged(w, fd, added, i);
    case Polled(fd, io) =>
      if fd == i {
        DispatchExchanged(w, fd, io);
      } else if i < |w.conns| {
        EventIsolated(w, fd, io);
        assert OnlyNotified(w.conns[i], Dispatch(w, fd, io).conns[i]);
        HistoryKept(w, Dispatch(w, fd, io), i);
      }
  }

  lemma {:induction false} ConnectedExchanged(w: World, fd: nat, added: bool, i: nat)
    requires Inv(w) && fd !in w.handed
    ensures History(AddConnection(w, fd, added), i) == History(w, i)
  {
    var v := AddConnection(w, fd, added);
    AddConnectionKeeps(w, fd, added);
    if i < |w.conns| {
      HistoryKept(w, v, i);
    }
  }

  lemma {:induction false} RunExchanged(w: World, es: seq<Event>, i: nat)
    requires Inv(w) && Possible(w, es)
    ensures History(Run(w, es), i) == History(w, i) + RunExchanges(w, es, i)
    decreases |es|
  {
    if es == [] {
      Regrouped(History(w, i), [], []);
    } else {
      var v := Step(w, es[0]);
      StepExchanged(w, es[0], i);
      StepKeeps(w, es[0]);
      RunExchanged(v, es[1..], i);
      Regrouped(History(w, i), StepExchanges(w, es[0], i), RunExchanges(v, es[1..], i));
    }
  }
}
