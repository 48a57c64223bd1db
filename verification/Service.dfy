/** From the bytes a client's builder wrote to what the server does and answers. */
module Service {
  import opened Bytes
  import opened Frames
  import opened Tlv
  import opened Payloads
  import opened Accounts
  import opened Server
  import opened Preservation
  import opened Histories
  import opened Provenance
  import opened Events
  import opened Requests

  // ---------- Requests as their builders wrote them ----------

  /** A register or login request at the head of a buffer is next in line, and says what its builder was given. */
  lemma {:induction false} CredentialsArrive(kind: byte, c: Credentials, rest: seq<byte>)
    requires |c.username| <= 32 && |c.password| <= 32
    ensures var m := CredentialMessage(kind, c);
            && Examine(Serialize(m) + rest) == Progress.Ready(m)
            && (Serialize(m) + rest)[HEADER_SIZE + |m.payload|..] == rest
            && m == Message(1, kind, 0, m.payload) && ParseCredentials(m.payload) == Some(c)
  {
    var m := CredentialMessage(kind, c);
    CredentialsRoundTrip(kind, c);
    CredentialsSize(kind, c);
    ExamineSerialized(m, rest);
  }

  lemma {:induction false} CredentialsSize(kind: byte, c: Credentials)
    ensures var m := CredentialMessage(kind, c); 4 <= |m.payload| <= 514
  {
    EncodeAllSize(CredentialFields(c));
  }

  /** What is left of the buffer and of the rest of the table once a request that touches only its sender is served. */
  predicate ServedAlone(w: World, fd: nat, v: World, rest: seq<byte>, response: Message)
    requires fd < |w.conns|
  {
    && |v.conns| == |w.conns| && (forall i | 0 <= i < |w.conns| && i != fd :: v.conns[i] == w.conns[i])
    && v.conns[fd].incoming == rest && v.conns[fd].outgoing == w.conns[fd].outgoing + Serialize(response)
    && v.accepted == w.accepted
  }

  /** Serving a request whose handler leaves the other connections and the log alone. */
  lemma {:induction false} AnsweredAlone(w: World, fd: nat, m: Message, f: Faults, o: Outcome)
    requires fd < |w.conns| && Examine(w.conns[fd].incoming) == Progress.Ready(m)
    requires o == Handle(w, fd, m, w.conns[fd].incoming[HEADER_SIZE], f) && o.world.accepted == w.accepted
    requires o.world.conns == w.conns[fd := o.world.conns[fd]]
    requires o.world.conns[fd].outgoing == w.conns[fd].outgoing
    ensures var t := TryOne(w, fd, f);
            && t.served && t.world.db == o.world.db
            && ServedAlone(w, fd, t.world, w.conns[fd].incoming[HEADER_SIZE + |m.payload|..], o.response)
            && t.world.conns[fd].status == o.world.conns[fd].status
            && SameIdentity(o.world.conns[fd], t.world.conns[fd])
  {
  }

  /**
   * A registration succeeds just when no call fails and no account has the name up to
   * letter case. Then the table has one more row, under the next row id and with the
   * texts cut at their first NUL, and the client is told that id modulo 2^32; if not,
   * nothing is stored and the client is told why.
   */
  lemma {:induction false} RegisterServed(w: World, fd: nat, m: Message, c: Credentials, f: Faults)
    requires fd < |w.conns| && AccountsOk(w.db) && Examine(w.conns[fd].incoming) == Progress.Ready(m)
    requires m.kind == REGISTER && ParseCredentials(m.payload) == Some(c)
    ensures var t := TryOne(w, fd, f);
            var rest := w.conns[fd].incoming[HEADER_SIZE + |m.payload|..];
            var free := forall r | r in w.db.rows :: !EqualUpToCase(r.name, CText(c.username));
            && t.served
            && t.world.conns[fd].status == w.conns[fd].status && t.world.conns[fd].username == w.conns[fd].username
            && if free && !f.lookup && !f.insert then
                 && t.world.db.rows == w.db.rows + [Row(w.db.nextRowid, CText(c.username), CText(c.password))]
                 && ServedAlone(w, fd, t.world, rest,
                                AccountMessage(REGISTER, Account(w.db.nextRowid % 0x1_0000_0000, c.username)))
               else
                 && t.world.db == w.db
                 && ServedAlone(w, fd, t.world, rest,
                                Message(1, 0, if f.lookup || free then 5 else 2, []))
  {
    RegisterDecided(w, m.payload, c, f);
    RegisterLocal(w, fd, m, f);
    AnsweredAlone(w, fd, m, f, RegisterUser(w, m.payload, f));
  }

  lemma {:induction false} RegisterLocal(w: World, fd: nat, m: Message, f: Faults)
    requires fd < |w.conns| && |w.conns[fd].incoming| > HEADER_SIZE && m.kind == REGISTER
    ensures Handle(w, fd, m, w.conns[fd].incoming[HEADER_SIZE], f) == RegisterUser(w, m.payload, f)
    ensures w.conns == w.conns[fd := w.conns[fd]]
  {
  }

  /** The same of the handler alone. */
  lemma {:induction false} RegisterDecided(w: World, payload: seq<byte>, c: Credentials, f: Faults)
    requires AccountsOk(w.db) && ParseCredentials(payload) == Some(c)
    ensures var o := RegisterUser(w, payload, f);
            var free := forall r | r in w.db.rows :: !EqualUpToCase(r.name, CText(c.username));
            && o.world.conns == w.conns && o.world.accepted == w.accepted
            && if free && !f.lookup && !f.insert then
                 && o.world.db.rows == w.db.rows + [Row(w.db.nextRowid, CText(c.username), CText(c.password))]
                 && o.response == AccountMessage(REGISTER, Account(w.db.nextRowid % 0x1_0000_0000, c.username))
               else
                 && o.world.db == w.db
                 && o.response == Message(1, 0, if f.lookup || free then 5 else 2, [])
  {
    Registered(w, payload, c, f);
    LookupExact(w.db.rows, c.username);
  }

  /** What row `k`, which has the name, makes of a login request: the exact password is let in. */
  predicate LoginServedBy(w: World, fd: nat, m: Message, c: Credentials, k: nat)
    requires fd < |w.conns| && |w.conns[fd].incoming| >= HEADER_SIZE + |m.payload| && k < |w.db.rows|
  {
    var t := TryOne(w, fd, NO_FAULTS);
    var rest := w.conns[fd].incoming[HEADER_SIZE + |m.payload|..];
    var row := w.db.rows[k];
    && t.served && t.world.db == w.db
    && if row.password == c.password then
         && t.world.conns[fd].status.auth
         && t.world.conns[fd].userId == UserId(row) && t.world.conns[fd].username == row.name
         && ServedAlone(w, fd, t.world, rest, AccountMessage(LOGIN, Account(UserId(row), row.name)))
       else
         && SameIdentity(w.conns[fd], t.world.conns[fd])
         && ServedAlone(w, fd, t.world, rest, Message(1, 1, 4, []))
  }

  /**
   * A login succeeds just when an account has the name up to letter case and exactly
   * the password. Then the connection carries that account, whose id and stored name
   * the client is told; if not, nothing changes and the client is told why.
   */
  lemma {:induction false} LoginServed(w: World, fd: nat, m: Message, c: Credentials)
    requires fd < |w.conns| && AccountsOk(w.db) && Examine(w.conns[fd].incoming) == Progress.Ready(m)
    requires m.kind == LOGIN && ParseCredentials(m.payload) == Some(c)
    ensures var t := TryOne(w, fd, NO_FAULTS);
            var rest := w.conns[fd].incoming[HEADER_SIZE + |m.payload|..];
            && t.served && t.world.db == w.db
            && (forall k | 0 <= k < |w.db.rows| && EqualUpToCase(w.db.rows[k].name, CText(c.username)) ::
                  LoginServedBy(w, fd, m, c, k))
            && ((forall r | r in w.db.rows :: !EqualUpToCase(r.name, CText(c.username))) ==>
                  && SameIdentity(w.conns[fd], t.world.conns[fd])
                  && ServedAlone(w, fd, t.world, rest, Message(1, 1, 3, [])))
  {
    forall k | 0 <= k < |w.db.rows| && EqualUpToCase(w.db.rows[k].name, CText(c.username))
      ensures LoginServedBy(w, fd, m, c, k)
    {
      LoginMatched(w, fd, m, c, k);
    }
    LoginUnmatched(w, fd, m, c);
    LoginLocal(w, fd, m.payload);
    AnsweredAlone(w, fd, m, NO_FAULTS, LoginUser(w, fd, m.payload, NO_FAULTS));
  }

  lemma {:induction false} LoginUnmatched(w: World, fd: nat, m: Message, c: Credentials)
    requires fd < |w.conns| && ParseCredentials(m.payload) == Some(c)
    ensures (forall r | r in w.db.rows :: !EqualUpToCase(r.name, CText(c.username))) ==>
              LoginUser(w, fd, m.payload, NO_FAULTS) == Outcome(w, Message(1, 1, 3, []))
  {
    LookupExact(w.db.rows, c.username);
  }

  lemma {:induction false} LoginMatched(w: World, fd: nat, m: Message, c: Credentials, k: nat)
    requires fd < |w.conns| && AccountsOk(w.db) && Examine(w.conns[fd].incoming) == Progress.Ready(m)
    requires m.kind == LOGIN && ParseCredentials(m.payload) == Some(c)
    requires k < |w.db.rows| && EqualUpToCase(w.db.rows[k].name, CText(c.username))
    ensures LoginServedBy(w, fd, m, c, k)
  {
    LoginDecided(w, fd, k, m.payload, c);
    LoginLocal(w, fd, m.payload);
    AnsweredAlone(w, fd, m, NO_FAULTS, LoginUser(w, fd, m.payload, NO_FAULTS));
  }

  lemma {:induction false} LoginLocal(w: World, fd: nat, payload: seq<byte>)
    requires fd < |w.conns|
    ensures var v := LoginUser(w, fd, payload, NO_FAULTS).world;
            && v.db == w.db && v.accepted == w.accepted && v.conns == w.conns[fd := v.conns[fd]]
            && v.conns[fd].outgoing == w.conns[fd].outgoing
  {
    assert w.conns[fd := w.conns[fd]] == w.conns;
  }

  /**
   * A world broadcast as its builder wrote it goes to every authenticated connection,
   * under its sender's account name.
   */
  lemma {:induction false} WorldServed(w: World, fd: nat, b: WorldBroadcast, rest: seq<byte>, f: Faults)
    requires InService(w, fd) && w.conns[fd].status.auth && WorldFits(b) && b.content != []
    requires w.conns[fd].incoming == Serialize(WorldMessage(b)) + rest
    ensures var v := TryOne(w, fd, f).world;
            var n := WorldMessage(WorldBroadcast(w.conns[fd].username, b.content));
            && v.accepted == w.accepted + [n] && v.conns[fd].incoming == rest
            && (forall i | 0 <= i < |w.conns| ::
                  v.conns[i].outgoing == w.conns[i].outgoing + if w.conns[i].status.auth then Serialize(n) else [])
  {
    WorldArrives(w, fd, b, rest);
    WorldDelivered(w, fd, WorldMessage(b), b, f);
  }

  lemma {:induction false} WorldArrives(w: World, fd: nat, b: WorldBroadcast, rest: seq<byte>)
    requires InService(w, fd) && w.conns[fd].status.auth && WorldFits(b) && b.content != []
    requires w.conns[fd].incoming == Serialize(WorldMessage(b)) + rest
    ensures NextIsWorld(w, fd, WorldMessage(b), b)
    ensures w.conns[fd].incoming[HEADER_SIZE + |WorldMessage(b).payload|..] == rest
  {
    WorldRoundTrip(b);
    WorldSize(b);
    ExamineSerialized(WorldMessage(b), rest);
  }

  /**
   * A private message as its builder wrote it goes to the lowest slot logged in under
   * its recipient's name, and back to its sender.
   */
  lemma {:induction false} P2pServed(w: World, fd: nat, b: P2pBroadcast, to: nat, rest: seq<byte>, f: Faults)
    requires InService(w, fd) && w.conns[fd].status.auth && P2pFits(b) && b.content != []
    requires w.conns[fd].incoming == Serialize(P2pMessage(b)) + rest && b.recipient != w.conns[fd].username
    requires to < |w.conns| && to != fd && w.conns[to].status.auth && w.conns[to].username == b.recipient
    requires forall i | 0 <= i < to :: !(i != fd && w.conns[i].status.auth && w.conns[i].username == b.recipient)
    ensures var v := TryOne(w, fd, f).world;
            var n := P2pMessage(P2pBroadcast(w.conns[fd].username, b.recipient, b.content));
            && v.accepted == w.accepted && v.conns[fd].incoming == rest
            && v.conns[to].outgoing == w.conns[to].outgoing + Serialize(n)
            && v.conns[fd].outgoing == w.conns[fd].outgoing + Serialize(n)
            && (forall i | 0 <= i < |w.conns| && i != fd && i != to :: v.conns[i] == w.conns[i])
  {
    P2pArrives(w, fd, b, rest);
    P2pRouted(w, fd, P2pMessage(b), b, to, f);
  }

  lemma {:induction false} P2pArrives(w: World, fd: nat, b: P2pBroadcast, rest: seq<byte>)
    requires InService(w, fd) && w.conns[fd].status.auth && P2pFits(b) && b.content != []
    requires w.conns[fd].incoming == Serialize(P2pMessage(b)) + rest && b.recipient != w.conns[fd].username
    ensures NextIsP2p(w, fd, P2pMessage(b), b)
    ensures w.conns[fd].incoming[HEADER_SIZE + |P2pMessage(b).payload|..] == rest
  {
    P2pRoundTrip(b);
    P2pSize(b);
    ExamineSerialized(P2pMessage(b), rest);
  }

  // ---------- Ids ----------

  /** Accounts with row ids below 2^32 are told apart by the ids that clients are given. */
  lemma {:induction false} IdsDistinct(db: Database, j: nat, k: nat)
    requires AccountsOk(db) && j < k < |db.rows|
    requires db.rows[j].rowid < 0x1_0000_0000 && db.rows[k].rowid < 0x1_0000_0000
    ensures UserId(db.rows[j]) != UserId(db.rows[k])
  {
  }

  /** On a fresh table the accounts are numbered from 1 in the order of their registration. */
  lemma {:induction false} IdsInOrder(es: seq<Event>, v: World, k: nat)
    requires Possible(Start(Database([], 1)), es) && v == Run(Start(Database([], 1)), es) && k < |v.db.rows|
    ensures v.db.nextRowid == |v.db.rows| + 1
    ensures v.db.rows[k].rowid == k + 1 && UserId(v.db.rows[k]) == (k + 1) % 0x1_0000_0000
  {
    StartOk(Database([], 1));
    RunGrew(Start(Database([], 1)), es);
  }

  // ---------- A client gets in ----------

  /** What a client does that connects on a descriptor and sends its registration and its login, in any pieces. */
  function Entrance(fd: nat, chunks: seq<seq<byte>>, counts: seq<nat>): seq<Event> {
    [Connected(fd, true), Polled(fd, Io(chunks, WouldBlock, [], counts, false, false))]
  }

  /**
   * In any reachable state, whoever connects and sends the bytes of a registration and
   * a login with the same credentials, under a name that is free up to letter case and
   * a password without NUL, is authenticated by that one event, whatever pieces the
   * bytes arrive in.
   */
  lemma {:induction false} AccessGranted(w: World, fd: nat, c: Credentials, chunks: seq<seq<byte>>, counts: seq<nat>)
    requires Reachable(w) && fd !in w.handed && CredentialsFit(c) && 0 !in c.password
    requires forall r | r in w.db.rows :: !EqualUpToCase(r.name, CText(c.username))
    requires AllBytes(chunks) == Serialize(CredentialMessage(REGISTER, c)) + Serialize(CredentialMessage(LOGIN, c))
    ensures Possible(w, Entrance(fd, chunks, counts))
    ensures var v := Run(w, Entrance(fd, chunks, counts));
            && Reachable(v) && fd < |v.conns|
            && v.conns[fd].status.active && v.conns[fd].status.auth
            && v.conns[fd].username == CText(c.username) && v.conns[fd].userId == w.db.nextRowid % 0x1_0000_0000
            && v.db.rows == w.db.rows + [Row(w.db.nextRowid, CText(c.username), CText(c.password))]
  {
    var io := Io(chunks, WouldBlock, [], counts, false, false);
    var es := Entrance(fd, chunks, counts);
    var u := Step(w, es[0]);
    ConnectionOpens(w, fd);
    assert es[1..] == [Polled(fd, io)] && es[1..][1..] == [];
    assert Possible(Step(u, Polled(fd, io)), []);
    assert Possible(u, es[1..]);
    RunOne(u, Polled(fd, io));
    ReachableRun(w, es);
    ReachableRun(w, [es[0]]);
    RunOne(w, es[0]);
    EventAdmits(u, fd, c, io);
  }

  lemma {:induction false} RunOne(w: World, e: Event)
    requires Enabled(w, e)
    ensures Possible(w, [e]) && Run(w, [e]) == Step(w, e)
  {
    assert [e][1..] == [];
    assert Possible(Step(w, e), []) && Run(Step(w, e), []) == Step(w, e);
  }

  lemma {:induction false} ReachableRun(w: World, es: seq<Event>)
    requires Reachable(w) && Possible(w, es)
    ensures Reachable(Run(w, es))
  {
    var db, before :| AccountsOk(db) && Possible(Start(db), before) && Run(Start(db), before) == w;
    RunTwice(Start(db), before, es);
  }

  lemma {:induction false} RunTwice(w: World, es: seq<Event>, more: seq<Event>)
    requires Possible(w, es) && Possible(Run(w, es), more)
    ensures Possible(w, es + more) && Run(w, es + more) == Run(Run(w, es), more)
    decreases |es|
  {
    if es == [] {
      assert es + more == more;
    } else {
      RunTwice(Step(w, es[0]), es[1..], more);
      assert (es + more)[0] == es[0] && (es + more)[1..] == es[1..] + more;
    }
  }

  lemma {:induction false} EventAdmits(u: World, fd: nat, c: Credentials, io: Io)
    requires Reachable(u) && fd < |u.conns| && u.conns[fd].status.wantRead && u.conns[fd].incoming == []
    requires CredentialsFit(c) && 0 !in c.password && Enabled(u, Polled(fd, io))
    requires forall r | r in u.db.rows :: !EqualUpToCase(r.name, CText(c.username))
    requires io == Io(io.chunks, WouldBlock, [], io.counts, false, false)
    requires AllBytes(io.chunks) == Serialize(CredentialMessage(REGISTER, c)) + Serialize(CredentialMessage(LOGIN, c))
    ensures var v := Step(u, Polled(fd, io));
            && v.conns[fd].status.active && v.conns[fd].status.auth
            && v.conns[fd].username == CText(c.username) && v.conns[fd].userId == u.db.nextRowid % 0x1_0000_0000
            && v.db.rows == u.db.rows + [Row(u.db.nextRowid, CText(c.username), CText(c.password))]
  {
    EventReadsAll(u, fd, io);
    AdmittedWhileReading(u, fd, c, io);
    EventCloses(u, fd, io);
    NothingOversize(c);
    assert [] + AllBytes(io.chunks) == AllBytes(io.chunks);
  }

  lemma {:induction false} EventReadsAll(u: World, fd: nat, io: Io)
    requires fd < |u.conns| && u.conns[fd].status.wantRead && io.end.WouldBlock? && Enabled(u, Polled(fd, io))
    ensures var r := Drain(Put(u, fd, Arrived(u.conns[fd], AllBytes(io.chunks))), fd, io.faults);
            var a := AfterReading(u, fd, io);
            a.db == r.db && SameIdentity(r.conns[fd], a.conns[fd]) && Step(u, Polled(fd, io)).db == a.db
  {
  }

  lemma {:induction false} AdmittedWhileReading(u: World, fd: nat, c: Credentials, io: Io)
    requires Reachable(u) && Enabled(u, Polled(fd, io)) && u.conns[fd].status.wantRead && u.conns[fd].incoming == []
    requires CredentialsFit(c) && 0 !in c.password && io.faults == []
    requires forall r | r in u.db.rows :: !EqualUpToCase(r.name, CText(c.username))
    requires AllBytes(io.chunks) == Serialize(CredentialMessage(REGISTER, c)) + Serialize(CredentialMessage(LOGIN, c))
    ensures var r := Drain(Put(u, fd, Arrived(u.conns[fd], AllBytes(io.chunks))), fd, []);
            && r.conns[fd].status.auth
            && r.conns[fd].username == CText(c.username) && r.conns[fd].userId == u.db.nextRowid % 0x1_0000_0000
            && r.db.rows == u.db.rows + [Row(u.db.nextRowid, CText(c.username), CText(c.password))]
  {
    ReachableOk(u);
    ArrivedInService(u, fd, io.chunks);
    assert [] + AllBytes(io.chunks) == AllBytes(io.chunks);
    DrainAdmits(Put(u, fd, Arrived(u.conns[fd], AllBytes(io.chunks))), fd, c);
  }

  lemma {:induction false} NothingOversize(c: Credentials)
    requires CredentialsFit(c)
    ensures !Decode(Serialize(CredentialMessage(REGISTER, c)) + Serialize(CredentialMessage(LOGIN, c))).oversize
  {
    var x, y := CredentialMessage(REGISTER, c), CredentialMessage(LOGIN, c);
    CredentialsArrive(REGISTER, c, Serialize(y));
    CredentialsArrive(LOGIN, c, []);
    assert Serialize(y) + [] == Serialize(y);
    assert Decode([]) == Decoded([], [], false);
  }

  /** The request loop serves both requests and stops. */
  lemma {:induction false} DrainAdmits(x: World, fd: nat, c: Credentials)
    requires InService(x, fd) && CredentialsFit(c) && 0 !in c.password
    requires forall r | r in x.db.rows :: !EqualUpToCase(r.name, CText(c.username))
    requires x.conns[fd].incoming == Serialize(CredentialMessage(REGISTER, c)) + Serialize(CredentialMessage(LOGIN, c))
    ensures var r := Drain(x, fd, []);
            && r.conns[fd].status.auth
            && r.conns[fd].username == CText(c.username) && r.conns[fd].userId == x.db.nextRowid % 0x1_0000_0000
            && r.db.rows == x.db.rows + [Row(x.db.nextRowid, CText(c.username), CText(c.password))]
  {
    var m, n := CredentialMessage(REGISTER, c), CredentialMessage(LOGIN, c);
    CredentialsArrive(REGISTER, c, Serialize(n));
    RegisterServed(x, fd, m, c, NO_FAULTS);
    var y := TryOne(x, fd, NO_FAULTS).world;
    TryOneKeeps(x, fd, NO_FAULTS);
    LoginAdmits(y, fd, c, x.db.nextRowid);
    assert Drain(x, fd, []) == Drain(y, fd, []);
  }

  lemma {:induction false} LoginAdmits(y: World, fd: nat, c: Credentials, id: nat)
    requires InService(y, fd) && CredentialsFit(c) && 0 !in c.password
    requires Row(id, CText(c.username), CText(c.password)) in y.db.rows
    requires y.conns[fd].incoming == Serialize(CredentialMessage(LOGIN, c))
    ensures var r := Drain(y, fd, []);
            && r.conns[fd].status.auth
            && r.conns[fd].username == CText(c.username) && r.conns[fd].userId == id % 0x1_0000_0000
            && r.db == y.db
  {
    var n := CredentialMessage(LOGIN, c);
    CredentialsArrive(LOGIN, c, []);
    assert Serialize(n) + [] == Serialize(n);
    LoginServed(y, fd, n, c);
    var k :| 0 <= k < |y.db.rows| && y.db.rows[k] == Row(id, CText(c.username), CText(c.password));
    assert LoginServedBy(y, fd, n, c, k);
    CTextUnique(c.password, c.password);
    var z := TryOne(y, fd, NO_FAULTS).world;
    assert z.conns[fd].incoming == [];
    assert Drain(z, fd, []) == z;
    assert Drain(y, fd, []) == Drain(z, fd, []);
  }

  /** So there are reachable states in which somebody is authenticated. */
  lemma {:induction false} SomebodyAuthenticated()
    ensures exists w :: Reachable(w) && |w.conns| > 5 && w.conns[5].status.auth
  {
    var c := Credentials([97], [98]);
    var db := Database([], 1);
    var bytes := Serialize(CredentialMessage(REGISTER, c)) + Serialize(CredentialMessage(LOGIN, c));
    assert AllBytes([bytes]) == bytes + AllBytes([]) == bytes;
    assert Possible(Start(db), []) && Run(Start(db), []) == Start(db);
    assert Reachable(Start(db));
    AccessGranted(Start(db), 5, c, [bytes], []);
    var v := Run(Start(db), Entrance(5, [bytes], []));
    assert Reachable(v) && |v.conns| > 5 && v.conns[5].status.auth;
  }
}
