/** Trails, the log and the user table only ever grow, over any number of events. */
module Histories {
  import opened Bytes
  import opened Frames
  import opened Payloads
  import opened Accounts
  import opened Server
  import opened Invariants
  import opened Preservation

  /** A session starts no earlier than it is noticed, keeps its start, and ends for good. */
  predicate SessionGrew(s: Session, t: Session, log: nat) {
    match s
    case Anonymous => t.Anonymous? || t.since >= log
    case Member(since) => t == s || (t.Former? && t.since == since && t.until >= log)
    case Former(_, _) => t == s
  }

  predicate ConnGrew(c: Conn, d: Conn, log: nat) {
    && c.trail.received <= d.trail.received && c.trail.served <= d.trail.served
    && c.trail.enqueued <= d.trail.enqueued && c.trail.written <= d.trail.written
    && (c.trail.used ==> d.trail.used)
    && SessionGrew(c.trail.session, d.trail.session, log)
  }

  /** Rows are only appended, under consecutive row ids. */
  predicate RowsGrew(a: Database, b: Database) {
    && a.rows <= b.rows && b.nextRowid == a.nextRowid + (|b.rows| - |a.rows|)
    && forall k | |a.rows| <= k < |b.rows| :: b.rows[k].rowid == a.nextRowid + (k - |a.rows|)
  }

  predicate Grew(v: World, w: World) {
    && |v.conns| <= |w.conns| && v.accepted <= w.accepted && RowsGrew(v.db, w.db)
    && forall i | 0 <= i < |v.conns| :: ConnGrew(v.conns[i], w.conns[i], |v.accepted|)
  }

  lemma {:induction false} GrewTrans(u: World, v: World, w: World)
    requires Grew(u, v) && Grew(v, w)
    ensures Grew(u, w)
  {
    forall i | 0 <= i < |u.conns| ensures ConnGrew(u.conns[i], w.conns[i], |u.accepted|) {
      assert ConnGrew(u.conns[i], v.conns[i], |u.accepted|);
      assert ConnGrew(v.conns[i], w.conns[i], |v.accepted|);
    }
  }

  lemma {:induction false} GrewRefl(w: World)
    ensures Grew(w, w)
  {
  }

  lemma {:induction false} PutGrew(w: World, fd: nat, c: Conn)
    requires fd < |w.conns| && ConnGrew(w.conns[fd], c, |w.accepted|)
    ensures Grew(w, Put(w, fd, c))
  {
  }

  lemma {:induction false} RegisterRows(w: World, payload: seq<byte>, f: Faults)
    ensures var v := RegisterUser(w, payload, f).world; v == w.(db := v.db) && RowsGrew(w.db, v.db)
  {
  }

  lemma {:induction false} RegisterGrew(w: World, payload: seq<byte>, f: Faults)
    ensures Grew(w, RegisterUser(w, payload, f).world)
  {
    var v := RegisterUser(w, payload, f).world;
    RegisterRows(w, payload, f);
    GrewRefl(w);
  }

  lemma {:induction false} LoginGrew(w: World, fd: nat, payload: seq<byte>, f: Faults)
    requires InService(w, fd)
    ensures Grew(w, LoginUser(w, fd, payload, f).world)
  {
    var v := LoginUser(w, fd, payload, f).world;
    var parsed := ParseCredentials(payload);
    if v == w {
      GrewRefl(w);
    } else {
      var u := Lookup(w.db.rows, Lower(parsed.value.username)).value;
      LoginConnGrew(w, fd, u);
      PutGrew(w, fd, Authenticated(w.conns[fd], u, |w.accepted|));
    }
  }

  lemma {:induction false} LoginConnGrew(w: World, fd: nat, u: User)
    requires InService(w, fd)
    ensures ConnGrew(w.conns[fd], Authenticated(w.conns[fd], u, |w.accepted|), |w.accepted|)
  {
    assert ConnOk(w.db, w.accepted, w.conns[fd]);
  }

  lemma {:induction false} WorldGrew(w: World, fd: nat, payload: seq<byte>)
    requires fd < |w.conns|
    ensures Grew(w, WorldRequest(w, fd, payload).world)
  {
  }

  lemma {:induction false} P2pGrew(w: World, fd: nat, payload: seq<byte>)
    requires fd < |w.conns|
    ensures Grew(w, P2pRequest(w, fd, payload).world)
  {
    if ParseP2p(payload).Some? {
      var b := ParseP2p(payload).value.(sender := w.conns[fd].username);
      var to := Recipient(w.conns, fd, b.recipient, 0);
      if to.Some? {
        PutGrew(w, to.value, Notify(w.conns[to.value], P2pMessage(b)));
      }
    }
  }

  lemma {:induction false} BroadcastGrew(w: World, fd: nat, payload: seq<byte>, peek: byte)
    requires fd < |w.conns|
    ensures Grew(w, Broadcast(w, fd, payload, peek).world)
  {
    if w.conns[fd].status.auth && peek == WORLD {
      WorldGrew(w, fd, payload);
    } else if w.conns[fd].status.auth && peek == P2P {
      P2pGrew(w, fd, payload);
    } else {
      GrewRefl(w);
    }
  }

  lemma {:induction false} HandleGrew(w: World, fd: nat, m: Message, peek: byte, f: Faults)
    requires InService(w, fd)
    ensures Grew(w, Handle(w, fd, m, peek, f).world)
  {
    if m.kind == REGISTER {
      RegisterGrew(w, m.payload, f);
    } else if m.kind == LOGIN {
      LoginGrew(w, fd, m.payload, f);
    } else if m.kind == CHAT {
      BroadcastGrew(w, fd, m.payload, peek);
    } else {
      GrewRefl(w);
    }
  }

  lemma {:induction false} AnswerGrew(w: World, v: World, fd: nat, request: Message, response: Message)
    requires Grew(w, v) && fd < |w.conns| && |v.conns[fd].incoming| >= HEADER_SIZE + |request.payload|
    ensures Grew(w, Put(v, fd, Answer(v.conns[fd], request, response)))
  {
    PutGrew(v, fd, Answer(v.conns[fd], request, response));
    GrewTrans(w, v, Put(v, fd, Answer(v.conns[fd], request, response)));
  }

  lemma {:induction false} TryOneGrew(w: World, fd: nat, f: Faults)
    requires InService(w, fd)
    ensures Grew(w, TryOne(w, fd, f).world)
  {
    var c := w.conns[fd];
    match Examine(c.incoming)
    case NeedMore => GrewRefl(w);
    case TooBig => PutGrew(w, fd, SetState(c, Closing));
    case Ready(m) =>
      var o := Handle(w, fd, m, c.incoming[HEADER_SIZE], f);
      HandleGrew(w, fd, m, c.incoming[HEADER_SIZE], f);
      AnswerGrew(w, o.world, fd, m, o.response);
  }

  lemma {:induction false} DrainGrew(w: World, fd: nat, fs: seq<Faults>)
    requires InService(w, fd)
    ensures Grew(w, Drain(w, fd, fs))
    decreases |w.conns[fd].incoming|
  {
    var t := TryOne(w, fd, FirstFaults(fs));
    TryOneGrew(w, fd, FirstFaults(fs));
    if t.served {
      TryOneKeeps(w, fd, FirstFaults(fs));
      DrainGrew(t.world, fd, LaterFaults(fs));
      GrewTrans(w, t.world, Drain(w, fd, fs));
    }
  }

  lemma {:induction false} HandleReadGrew(w: World, fd: nat, chunks: seq<seq<byte>>, end: ReadEnd, fs: seq<Faults>)
    requires InService(w, fd)
    ensures Grew(w, HandleRead(w, fd, chunks, end, fs))
  {
    var c := Arrived(w.conns[fd], AllBytes(chunks));
    if end.WouldBlock? {
      var v := Put(w, fd, c);
      ArrivedKeeps(w.db, w.accepted, w.conns[fd], AllBytes(chunks));
      PutKeeps(w, fd, c);
      PutGrew(w, fd, c);
      DrainGrew(v, fd, fs);
      var r := Drain(v, fd, fs);
      GrewTrans(w, v, r);
      PutGrew(r, fd, SetState(r.conns[fd], Writing));
      GrewTrans(w, r, Put(r, fd, SetState(r.conns[fd], Writing)));
    } else {
      PutGrew(w, fd, Aborted(SetState(c, Closing)));
    }
  }

  lemma {:induction false} FlushGrew(c: Conn, counts: seq<nat>, fails: bool, log: nat)
    ensures ConnGrew(c, Flush(c, counts, fails), log)
    ensures Flush(c, counts, fails).trail.session == c.trail.session
    decreases |counts|
  {
    if counts != [] {
      var d := Flushed(c, Min(counts[0], |c.outgoing|));
      if d.outgoing != [] {
        FlushGrew(d, counts[1..], fails, log);
      }
    }
  }

  lemma {:induction false} DispatchGrew(w: World, fd: nat, io: Io)
    requires Inv(w) && fd < |w.conns| && !w.conns[fd].interest.Unwatched?
    ensures Grew(w, Dispatch(w, fd, io))
  {
    var r := if w.conns[fd].status.wantRead then HandleRead(w, fd, io.chunks, io.end, io.faults) else w;
    if w.conns[fd].status.wantRead {
      HandleReadGrew(w, fd, io.chunks, io.end, io.faults);
    }
    WriteThenCloseGrew(r, fd, io);
    GrewTrans(w, r, Dispatch(w, fd, io));
  }

  lemma {:induction false} WriteThenCloseGrew(w: World, fd: nat, io: Io)
    requires fd < |w.conns|
    ensures Grew(w, WriteThenClose(w, fd, io))
  {
    FlushGrew(w.conns[fd], io.counts, io.writeFails, |w.accepted|);
    PutGrew(w, fd, WriteThenClose(w, fd, io).conns[fd]);
  }

  lemma {:induction false} AddConnectionGrew(w: World, fd: nat, added: bool)
    ensures Grew(w, AddConnection(w, fd, added))
  {
    var conns := Grow(w.conns, fd + 1);
    forall i | 0 <= i < |w.conns| ensures ConnGrew(w.conns[i], AddConnection(w, fd, added).conns[i], |w.accepted|) {
      assert conns[i] == w.conns[i];
    }
  }

  lemma {:induction false} StepGrew(w: World, e: Event)
    requires Inv(w) && Enabled(w, e)
    ensures Grew(w, Step(w, e))
  {
    match e
    case Connected(fd, added) => AddConnectionGrew(w, fd, added);
    case Polled(fd, io) => DispatchGrew(w, fd, io);
  }

  lemma {:induction false} RunGrew(w: World, es: seq<Event>)
    requires Inv(w) && Possible(w, es)
    ensures Grew(w, Run(w, es))
    decreases |es|
  {
    if es != [] {
      StepGrew(w, es[0]);
      StepKeeps(w, es[0]);
      RunGrew(Step(w, es[0]), es[1..]);
      GrewTrans(w, Step(w, es[0]), Run(w, es));
    }
  }

  // ---------- What an event does to other connections ----------

  /** Nothing happened, or notifications were appended for an authenticated connection, which now waits to write. */
  predicate OnlyNotified(c: Conn, d: Conn) {
    && d == c.(status := d.status, outgoing := d.outgoing, interest := d.interest,
               trail := c.trail.(enqueued := d.trail.enqueued))
    && c.trail.enqueued <= d.trail.enqueued
    && (forall k | |c.trail.enqueued| <= k < |d.trail.enqueued| :: IsNotification(d.trail.enqueued[k]))
    && (d != c ==> c.status.auth && d.status == c.status.(wantRead := false, wantWrite := true))
  }

  predicate OthersNotified(v: World, w: World, fd: nat) {
    |v.conns| == |w.conns| && forall i | 0 <= i < |v.conns| && i != fd :: OnlyNotified(v.conns[i], w.conns[i])
  }

  lemma {:induction false} NotifiedTrans(u: World, v: World, w: World, fd: nat)
    requires OthersNotified(u, v, fd) && OthersNotified(v, w, fd)
    ensures OthersNotified(u, w, fd)
  {
    forall i | 0 <= i < |u.conns| && i != fd ensures OnlyNotified(u.conns[i], w.conns[i]) {
      assert OnlyNotified(u.conns[i], v.conns[i]) && OnlyNotified(v.conns[i], w.conns[i]);
    }
  }

  lemma {:induction false} PutNotified(v: World, w: World, fd: nat, c: Conn)
    requires fd < |v.conns| && OthersNotified(v, w, fd)
    ensures OthersNotified(v, Put(w, fd, c), fd)
  {
  }

  lemma {:induction false} NotifyNotified(c: Conn, m: Message)
    requires c.status.auth && IsNotification(m)
    ensures OnlyNotified(c, Notify(c, m))
  {
  }

  lemma {:induction false} WorldNotified(w: World, fd: nat, payload: seq<byte>)
    requires fd < |w.conns|
    ensures OthersNotified(w, WorldRequest(w, fd, payload).world, fd)
  {
    if ParseWorld(payload).Some? {
      var b := ParseWorld(payload).value.(sender := w.conns[fd].username);
      WorldSize(b);
      FanOutNotified(w, fd, WorldMessage(b));
    }
  }

  lemma {:induction false} FanOutNotified(w: World, fd: nat, m: Message)
    requires IsNotification(m)
    ensures OthersNotified(w, w.(conns := FanOut(w.conns, fd, m), accepted := w.accepted + [m]), fd)
  {
    forall i | 0 <= i < |w.conns| && w.conns[i].status.auth ensures OnlyNotified(w.conns[i], Notify(w.conns[i], m)) {
      NotifyNotified(w.conns[i], m);
    }
  }

  lemma {:induction false} P2pNotified(w: World, fd: nat, payload: seq<byte>)
    requires fd < |w.conns|
    ensures OthersNotified(w, P2pRequest(w, fd, payload).world, fd)
  {
    if ParseP2p(payload).Some? {
      var b := ParseP2p(payload).value.(sender := w.conns[fd].username);
      P2pSize(b);
      var to := Recipient(w.conns, fd, b.recipient, 0);
      if to.Some? {
        NotifyNotified(w.conns[to.value], P2pMessage(b));
      }
    }
  }

  lemma {:induction false} BroadcastNotified(w: World, fd: nat, payload: seq<byte>, peek: byte)
    requires fd < |w.conns|
    ensures OthersNotified(w, Broadcast(w, fd, payload, peek).world, fd)
  {
    WorldNotified(w, fd, payload);
    P2pNotified(w, fd, payload);
  }

  lemma {:induction false} HandleNotified(w: World, fd: nat, m: Message, peek: byte, f: Faults)
    requires fd < |w.conns|
    ensures OthersNotified(w, Handle(w, fd, m, peek, f).world, fd)
  {
    if m.kind == CHAT {
      BroadcastNotified(w, fd, m.payload, peek);
    } else if m.kind == LOGIN {
      LoginNotified(w, fd, m.payload, f);
    }
  }

  lemma {:induction false} LoginNotified(w: World, fd: nat, payload: seq<byte>, f: Faults)
    requires fd < |w.conns|
    ensures OthersNotified(w, LoginUser(w, fd, payload, f).world, fd)
  {
  }

  lemma {:induction false} DrainNotified(w: World, fd: nat, fs: seq<Faults>)
    requires fd < |w.conns|
    ensures OthersNotified(w, Drain(w, fd, fs), fd)
    decreases |w.conns[fd].incoming|
  {
    var c := w.conns[fd];
    var t := TryOne(w, fd, FirstFaults(fs));
    if Examine(c.incoming).Ready? {
      var m := Examine(c.incoming).frame;
      var o := Handle(w, fd, m, c.incoming[HEADER_SIZE], FirstFaults(fs));
      HandleNotified(w, fd, m, c.incoming[HEADER_SIZE], FirstFaults(fs));
      PutNotified(w, o.world, fd, Answer(o.world.conns[fd], m, o.response));
      DrainNotified(t.world, fd, LaterFaults(fs));
      NotifiedTrans(w, t.world, Drain(w, fd, fs), fd);
    }
  }

  /** An event on one descriptor changes no other connection except by notifying it. */
  lemma {:induction false} EventIsolated(w: World, fd: nat, io: Io)
    requires fd < |w.conns|
    ensures OthersNotified(w, Dispatch(w, fd, io), fd)
  {
    if w.conns[fd].status.wantRead && io.end.WouldBlock? {
      var v := Put(w, fd, Arrived(w.conns[fd], AllBytes(io.chunks)));
      DrainNotified(v, fd, io.faults);
    }
  }
}
