/** Every event keeps the invariant, so every reachable state satisfies it. */
module Preservation {
  import opened Bytes
  import opened Frames
  import opened Payloads
  import opened Accounts
  import opened Server
  import opened Invariants

  /** A connection whose requests are being served. */
  predicate Working(c: Conn) {
    && c.trail.used && !c.trail.aborted && c.interest == Readable
    && c.status.active && c.status.wantRead && !c.status.wantWrite && !c.status.wantClose
  }

  predicate InService(w: World, fd: nat) {
    fd < |w.conns| && AllOk(w) && OthersRest(w, fd) && Working(w.conns[fd])
  }

  // ---------- Requests ----------

  /** Serving a request changes at most who the requester is. */
  predicate SameBuffers(c: Conn, d: Conn) {
    && d.incoming == c.incoming && d.outgoing == c.outgoing && d.interest == c.interest
    && d.status.(auth := c.status.auth) == c.status
    && d.trail.(session := c.trail.session) == c.trail
  }

  /** What any handler leaves behind before its response is enqueued. */
  ghost predicate Handled(w: World, fd: nat, kind: byte, o: Outcome)
    requires fd < |w.conns|
  {
    && |o.world.conns| == |w.conns| && o.world.handed == w.handed
    && AccountsOk(o.world.db)
    && Sane(o.response) && o.response.kind == kind
    && (IsWorld(o.response) ==> w.conns[fd].status.auth)
    && o.world.accepted == (if IsWorld(o.response) then w.accepted + [o.response] else w.accepted)
    && ConnOk(o.world.db, w.accepted, o.world.conns[fd])
    && SameBuffers(w.conns[fd], o.world.conns[fd])
    && (IsWorld(o.response) ==> o.world.conns[fd] == w.conns[fd])
    && (forall i | 0 <= i < |w.conns| && i != fd ::
          && ConnOk(o.world.db, o.world.accepted, o.world.conns[i])
          && Resting(o.world.conns[i])
          && o.world.conns[i].trail.used == w.conns[i].trail.used)
  }

  lemma {:induction false} RefusedHandled(w: World, fd: nat, kind: byte, rc: byte)
    requires InService(w, fd) && rc <= UNKNOWN_COMMAND
    ensures Handled(w, fd, kind, Outcome(w, StatusOnly(kind, rc)))
  {
  }

  lemma {:induction false} RegisterHandled(w: World, fd: nat, payload: seq<byte>, f: Faults)
    requires InService(w, fd)
    ensures Handled(w, fd, REGISTER, RegisterUser(w, payload, f))
  {
    var parsed := ParseCredentials(payload);
    if parsed.None? {
      RefusedHandled(w, fd, REGISTER, MALFORMED);
    } else if f.lookup {
      RefusedHandled(w, fd, REGISTER, INTERNAL);
    } else if Lookup(w.db.rows, Lower(parsed.value.username)).Some? {
      RefusedHandled(w, fd, REGISTER, USER_EXISTS);
    } else {
      RefusedHandled(w, fd, REGISTER, INTERNAL);
      ParsedInLimit(payload);
      var c := parsed.value;
      InsertKeeps(w.db, c.username, c.password);
      InsertedHandled(w, fd, NewRow(w.db, c.username, c.password), c.username);
    }
  }

  lemma {:induction false} InsertedHandled(w: World, fd: nat, row: Row, name: Text)
    requires InService(w, fd) && NameFits(name) && AccountsOk(Database(w.db.rows + [row], w.db.nextRowid + 1))
    ensures var v := w.(db := Database(w.db.rows + [row], w.db.nextRowid + 1));
            Handled(w, fd, REGISTER, Outcome(v, AccountMessage(REGISTER, Account(UserId(row), name))))
  {
    AccountSize(REGISTER, Account(UserId(row), name));
    var db := Database(w.db.rows + [row], w.db.nextRowid + 1);
    forall i | 0 <= i < |w.conns| ensures ConnOk(db, w.accepted, w.conns[i]) {
      AccountsGrow(w.db, w.accepted, w.conns[i], row);
    }
  }

  lemma {:induction false} LoginHandled(w: World, fd: nat, payload: seq<byte>, f: Faults)
    requires InService(w, fd)
    ensures Handled(w, fd, LOGIN, LoginUser(w, fd, payload, f))
  {
    var parsed := ParseCredentials(payload);
    if parsed.None? {
      RefusedHandled(w, fd, LOGIN, MALFORMED);
    } else if f.lookup {
      RefusedHandled(w, fd, LOGIN, INTERNAL);
    } else if Lookup(w.db.rows, Lower(parsed.value.username)).None? {
      RefusedHandled(w, fd, LOGIN, USER_NOT_FOUND);
    } else {
      var u := Lookup(w.db.rows, Lower(parsed.value.username)).value;
      RefusedHandled(w, fd, LOGIN, INVALID_CREDENTIALS);
      AuthenticatedHandled(w, fd, u);
    }
  }

  lemma {:induction false} AuthenticatedHandled(w: World, fd: nat, u: User)
    requires InService(w, fd) && exists r :: r in w.db.rows && u == User(UserId(r), r.name, r.password)
    ensures var v := Put(w, fd, Authenticated(w.conns[fd], u, |w.accepted|));
            Handled(w, fd, LOGIN, Outcome(v, AccountMessage(LOGIN, Account(u.id, u.name))))
  {
    AccountSize(LOGIN, Account(u.id, u.name));
    AuthenticatedKeeps(w.db, w.accepted, w.conns[fd], u);
  }

  /** Logging in again keeps the membership that is already there. */
  lemma {:induction false} AuthenticatedKeeps(db: Database, log: seq<Message>, c: Conn, u: User)
    requires AccountsOk(db) && ConnOk(db, log, c) && Working(c)
    requires exists r :: r in db.rows && u == User(UserId(r), r.name, r.password)
    ensures ConnOk(db, log, Authenticated(c, u, |log|))
    ensures |u.name| <= MAX_NAME
  {
    assert log[|log|..] == [];
  }

  lemma {:induction false} WorldHandled(w: World, fd: nat, payload: seq<byte>)
    requires InService(w, fd) && w.conns[fd].status.auth
    ensures Handled(w, fd, CHAT, WorldRequest(w, fd, payload))
  {
    RefusedHandled(w, fd, CHAT, MALFORMED);
    ParsedInLimit(payload);
    if ParseWorld(payload).Some? && ParseWorld(payload).value.content != [] {
      var b := ParseWorld(payload).value.(sender := w.conns[fd].username);
      var m := WorldMessage(b);
      WorldSize(b);
      FanOutHandled(w, fd, m);
    }
  }

  lemma {:induction false} FanOutHandled(w: World, fd: nat, m: Message)
    requires InService(w, fd) && w.conns[fd].status.auth && Sane(m) && IsWorld(m)
    ensures var v := w.(conns := FanOut(w.conns, fd, m), accepted := w.accepted + [m]);
            Handled(w, fd, CHAT, Outcome(v, m))
  {
    var conns := FanOut(w.conns, fd, m);
    forall i | 0 <= i < |w.conns| && i != fd
      ensures && ConnOk(w.db, w.accepted + [m], conns[i]) && Resting(conns[i])
              && conns[i].trail.used == w.conns[i].trail.used
    {
      if w.conns[i].status.auth {
        NotifyKeeps(w.db, w.accepted, w.conns[i], m);
      } else {
        LogGrows(w.db, w.accepted, w.conns[i], m);
      }
    }
  }

  lemma {:induction false} P2pHandled(w: World, fd: nat, payload: seq<byte>)
    requires InService(w, fd) && w.conns[fd].status.auth
    ensures Handled(w, fd, CHAT, P2pRequest(w, fd, payload))
  {
    var parsed := ParseP2p(payload);
    if parsed.None? || parsed.value.content == [] || w.conns[fd].username == parsed.value.recipient {
      RefusedHandled(w, fd, CHAT, MALFORMED);
    } else {
      ParsedInLimit(payload);
      var b := parsed.value.(sender := w.conns[fd].username);
      P2pSize(b);
      var to := Recipient(w.conns, fd, b.recipient, 0);
      if to.None? {
        RefusedHandled(w, fd, CHAT, USER_NOT_FOUND);
      } else {
        NotifiedHandled(w, fd, to.value, P2pMessage(b));
      }
    }
  }

  lemma {:induction false} NotifiedHandled(w: World, fd: nat, to: nat, m: Message)
    requires InService(w, fd) && to < |w.conns| && to != fd && w.conns[to].status.auth
    requires Sane(m) && IsNotification(m) && !IsWorld(m)
    ensures Handled(w, fd, CHAT, Outcome(Put(w, to, Notify(w.conns[to], m)), m))
  {
    NotifyKeeps(w.db, w.accepted, w.conns[to], m);
  }

  lemma {:induction false} BroadcastHandled(w: World, fd: nat, payload: seq<byte>, peek: byte)
    requires InService(w, fd)
    ensures Handled(w, fd, CHAT, Broadcast(w, fd, payload, peek))
  {
    if !w.conns[fd].status.auth {
      RefusedHandled(w, fd, CHAT, INVALID_CREDENTIALS);
    } else if peek == WORLD {
      WorldHandled(w, fd, payload);
    } else if peek == P2P {
      P2pHandled(w, fd, payload);
    } else {
      RefusedHandled(w, fd, CHAT, MALFORMED);
    }
  }

  lemma {:induction false} HandleHandled(w: World, fd: nat, m: Message, peek: byte, f: Faults)
    requires InService(w, fd)
    ensures Handled(w, fd, m.kind, Handle(w, fd, m, peek, f))
  {
    if m.kind == REGISTER {
      RegisterHandled(w, fd, m.payload, f);
    } else if m.kind == LOGIN {
      LoginHandled(w, fd, m.payload, f);
    } else if m.kind == CHAT {
      BroadcastHandled(w, fd, m.payload, peek);
    } else {
      RefusedHandled(w, fd, m.kind, UNKNOWN_COMMAND);
    }
  }

  lemma {:induction false} TryOneKeeps(w: World, fd: nat, f: Faults)
    requires InService(w, fd)
    ensures var t := TryOne(w, fd, f);
            && AllOk(t.world) && OthersRest(t.world, fd)
            && (t.served ==> Working(t.world.conns[fd]))
            && (!t.served ==> Drained(t.world.conns[fd]))
  {
    var c := w.conns[fd];
    match Examine(c.incoming)
    case NeedMore =>
    case TooBig =>
      StateKeeps(w.db, w.accepted, c, Closing);
      PutKeeps(w, fd, SetState(c, Closing));
    case Ready(m) =>
      var o := Handle(w, fd, m, c.incoming[HEADER_SIZE], f);
      HandleHandled(w, fd, m, c.incoming[HEADER_SIZE], f);
      AnsweredKeeps(w, fd, m, o);
  }

  lemma {:induction false} AnsweredKeeps(w: World, fd: nat, m: Message, o: Outcome)
    requires InService(w, fd) && Examine(w.conns[fd].incoming) == Progress.Ready(m) && Handled(w, fd, m.kind, o)
    ensures var v := Put(o.world, fd, Answer(o.world.conns[fd], m, o.response));
            AllOk(v) && OthersRest(v, fd) && Working(v.conns[fd])
  {
    AnswerKeeps(o.world.db, w.accepted, o.world.conns[fd], m, o.response);
  }

  /** The request loop has stopped: nothing servable is left, and an oversized header asks for the close. */
  predicate Drained(c: Conn) {
    && c.trail.used && !c.trail.aborted && c.interest == Readable
    && c.status.active && c.status.wantRead && !c.status.wantWrite
    && Decode(c.incoming) == Decoded([], c.incoming, c.status.wantClose)
  }

  lemma {:induction false} DrainKeeps(w: World, fd: nat, fs: seq<Faults>)
    requires InService(w, fd)
    ensures var r := Drain(w, fd, fs); AllOk(r) && OthersRest(r, fd) && Drained(r.conns[fd])
    decreases |w.conns[fd].incoming|
  {
    var t := TryOne(w, fd, FirstFaults(fs));
    TryOneKeeps(w, fd, FirstFaults(fs));
    if t.served {
      DrainKeeps(t.world, fd, LaterFaults(fs));
    }
  }

  // ---------- Events ----------

  /** After the reading and writing of an event: open for more, or about to be closed for a reason. */
  predicate Settled(c: Conn) {
    && c.trail.used && c.status.active
    && (!c.status.wantClose ==> Open(c))
    && (c.status.wantClose && !c.trail.aborted ==> Decode(c.incoming) == Decoded([], c.incoming, true))
  }

  /** After the reading alone: writing starts at once when there is something to write. */
  predicate ReadDone(c: Conn) {
    && Settled(c)
    && (c.status.wantWrite ==> c.outgoing != [] && !c.status.wantRead && c.interest == Writable && !c.trail.aborted)
  }

  lemma {:induction false} AbortKeeps(w: World, fd: nat, c: Conn)
    requires InService(w, fd) && ConnOk(w.db, w.accepted, c) && Working(c)
    ensures var r := Put(w, fd, Aborted(SetState(c, Closing))); AllOk(r) && OthersRest(r, fd) && ReadDone(r.conns[fd])
  {
    StateKeeps(w.db, w.accepted, c, Closing);
    StateKeeps(w.db, w.accepted, SetState(c, Closing), Closing);
    PutKeeps(w, fd, Aborted(SetState(c, Closing)));
  }

  /** Bytes that arrive leave the connection in service. */
  lemma {:induction false} ArrivedInService(w: World, fd: nat, chunks: seq<seq<byte>>)
    requires InService(w, fd)
    ensures InService(Put(w, fd, Arrived(w.conns[fd], AllBytes(chunks))), fd)
  {
    var c := w.conns[fd];
    ArrivedKeeps(w.db, w.accepted, c, AllBytes(chunks));
    PutKeeps(w, fd, Arrived(c, AllBytes(chunks)));
  }

  lemma {:induction false} HandleReadKeeps(w: World, fd: nat, chunks: seq<seq<byte>>, end: ReadEnd, fs: seq<Faults>)
    requires InService(w, fd) && Open(w.conns[fd])
    ensures var r := HandleRead(w, fd, chunks, end, fs); AllOk(r) && OthersRest(r, fd) && ReadDone(r.conns[fd])
  {
    var c := Arrived(w.conns[fd], AllBytes(chunks));
    if end.WouldBlock? {
      ArrivedInService(w, fd, chunks);
      DrainKeeps(Put(w, fd, c), fd, fs);
      WritingStarts(Drain(Put(w, fd, c), fd, fs), fd);
    } else {
      ArrivedKeeps(w.db, w.accepted, w.conns[fd], AllBytes(chunks));
      AbortKeeps(w, fd, c);
    }
  }

  /** When the request loop has left something to write, writing starts. */
  lemma {:induction false} WritingStarts(r: World, fd: nat)
    requires fd < |r.conns| && AllOk(r) && OthersRest(r, fd) && Drained(r.conns[fd])
    ensures var v := if r.conns[fd].outgoing != [] then Put(r, fd, SetState(r.conns[fd], Writing)) else r;
            AllOk(v) && OthersRest(v, fd) && ReadDone(v.conns[fd])
  {
    StateKeeps(r.db, r.accepted, r.conns[fd], Writing);
    PutKeeps(r, fd, SetState(r.conns[fd], Writing));
  }

  lemma {:induction false} FlushKeeps(db: Database, log: seq<Message>, c: Conn, counts: seq<nat>, fails: bool)
    requires ConnOk(db, log, c) && ReadDone(c) && c.status.wantWrite
    ensures var d := Flush(c, counts, fails); ConnOk(db, log, d) && Settled(d)
    decreases |counts|
  {
    if counts != [] {
      var n := Min(counts[0], |c.outgoing|);
      var d := Flushed(c, n);
      FlushedKeeps(db, log, c, n);
      if d.outgoing != [] {
        FlushKeeps(db, log, d, counts[1..], fails);
      }
    }
  }

  lemma {:induction false} DispatchKeeps(w: World, fd: nat, io: Io)
    requires Inv(w) && fd < |w.conns| && !w.conns[fd].interest.Unwatched?
    ensures Inv(Dispatch(w, fd, io))
  {
    var r := if w.conns[fd].status.wantRead then HandleRead(w, fd, io.chunks, io.end, io.faults) else w;
    if w.conns[fd].status.wantRead {
      HandleReadKeeps(w, fd, io.chunks, io.end, io.faults);
    }
    WriteThenCloseKeeps(r, fd, io);
  }

  lemma {:induction false} WriteThenCloseKeeps(r: World, fd: nat, io: Io)
    requires fd < |r.conns| && AllOk(r) && OthersRest(r, fd) && ReadDone(r.conns[fd])
    ensures Inv(WriteThenClose(r, fd, io))
  {
    var c := r.conns[fd];
    var d := if c.status.wantWrite then Flush(c, io.counts, io.writeFails) else c;
    if c.status.wantWrite {
      FlushKeeps(r.db, r.accepted, c, io.counts, io.writeFails);
    }
    ClosedKeeps(r.db, r.accepted, d, io.error);
    PutKeeps(r, fd, WriteThenClose(r, fd, io).conns[fd]);
  }

  /** A connection is left open, or closed with its membership ended. */
  lemma {:induction false} ClosedKeeps(db: Database, log: seq<Message>, d: Conn, error: bool)
    requires ConnOk(db, log, d) && Settled(d)
    ensures var e := if error then Aborted(d) else d;
            var f := if error || d.status.wantClose then Removed(e, |log|) else d;
            ConnOk(db, log, f) && Resting(f)
  {
    if error || d.status.wantClose {
      var e := if error then Aborted(d) else d;
      StateKeeps(db, log, d, Closing);
      RemovedKeeps(db, log, e);
      assert Shut(Removed(e, |log|));
    }
  }

  lemma {:induction false} AddConnectionKeeps(w: World, fd: nat, added: bool)
    requires Inv(w) && fd !in w.handed
    ensures Inv(AddConnection(w, fd, added))
  {
    BlankOk(w.db, w.accepted);
    if added {
      var grown := World(Grow(w.conns, fd + 1), w.db, w.accepted, w.handed + {fd});
      assert Shut(grown.conns[fd]) && !grown.conns[fd].trail.used;
      OpenedOk(w.db, w.accepted, grown.conns[fd]);
      PutKeeps(grown, fd, Opened(grown.conns[fd]));
    }
  }

  lemma {:induction false} BlankOk(db: Database, log: seq<Message>)
    ensures ConnOk(db, log, BLANK) && Shut(BLANK)
  {
    assert Worlds([]) == [];
  }

  lemma {:induction false} OpenedOk(db: Database, log: seq<Message>, c: Conn)
    requires Untouched(c)
    ensures ConnOk(db, log, Opened(c)) && Open(Opened(c))
  {
    assert Worlds([]) == [];
  }

  lemma {:induction false} StartOk(db: Database)
    requires AccountsOk(db)
    ensures Inv(Start(db))
  {
    BlankOk(db, []);
    forall i | 0 <= i < INITIAL_CAPACITY ensures ConnOk(db, [], Start(db).conns[i]) && Resting(Start(db).conns[i]) {
      BlankOk(db, []);
    }
  }

  lemma {:induction false} StepKeeps(w: World, e: Event)
    requires Inv(w) && Enabled(w, e)
    ensures Inv(Step(w, e))
  {
    match e
    case Connected(fd, added) => AddConnectionKeeps(w, fd, added);
    case Polled(fd, io) => DispatchKeeps(w, fd, io);
  }

  lemma {:induction false} RunKeeps(w: World, es: seq<Event>)
    requires Inv(w) && Possible(w, es)
    ensures Inv(Run(w, es))
    decreases |es|
  {
    if es != [] {
      StepKeeps(w, es[0]);
      RunKeeps(Step(w, es[0]), es[1..]);
    }
  }

  /** The invariant holds in every state the server can be in between two events. */
  lemma {:induction false} ReachableOk(w: World)
    requires Reachable(w)
    ensures Inv(w)
  {
    var db, es :| AccountsOk(db) && Possible(Start(db), es) && Run(Start(db), es) == w;
    StartOk(db);
    RunKeeps(Start(db), es);
  }
}
