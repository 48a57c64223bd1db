/**
 * The connection table and its handlers as the source runs them, each proved to take
 * the step of the transition system.
 */
module ConnectionTable {
  import opened Bytes
  import opened Frames
  import opened Payloads
  import opened Flags
  import opened Accounts
  import opened Server
  import opened Parsers
  import opened Builders
  import opened Requests
  import Theorems

  /** Slot by slot, what the parallel vectors hold together. */
  ghost function Zip(flags: seq<bv8>, incoming: seq<seq<byte>>, outgoing: seq<seq<byte>>, userIds: seq<u32>,
                     usernames: seq<Text>, interest: map<nat, Interest>, trails: seq<Trail>): (r: seq<Conn>)
    requires |flags| == |incoming| == |outgoing| == |userIds| == |usernames| == |trails|
    ensures |r| == |flags|
    ensures forall i | 0 <= i < |flags| :: r[i] ==
              Conn(Meaning(flags[i]), incoming[i], outgoing[i], userIds[i], usernames[i],
                   if i in interest then interest[i] else Unwatched, trails[i])
  {
    seq(|flags|, i requires 0 <= i < |flags| =>
      Conn(Meaning(flags[i]), incoming[i], outgoing[i], userIds[i], usernames[i],
           if i in interest then interest[i] else Unwatched, trails[i]))
  }

  /** The assignments to the flags in set_connection_state. */
  method NextMask(mask: bv8, next: Mode) returns (r: bv8)
    requires Declared(mask)
    ensures Declared(r)
    ensures Meaning(r) == match next
                          case Reading => Meaning(mask).(wantRead := true, wantWrite := false)
                          case Writing => Meaning(mask).(wantRead := false, wantWrite := true)
                          case Closing => Meaning(mask).(wantClose := true)
  {
    Updates(mask);
    match next {
      case Reading =>
        r := mask | WANT_READ;
        r := r & !WANT_WRITE;
      case Writing =>
        r := mask & !WANT_READ;
        r := r | WANT_WRITE;
      case Closing =>
        r := mask | WANT_CLOSE;
    }
  }

  method AuthMask(mask: bv8) returns (r: bv8)
    requires Declared(mask)
    ensures Declared(r) && Meaning(r) == Meaning(mask).(auth := true)
  {
    Updates(mask);
    r := mask | IS_AUTH;
  }

  lemma {:induction false} PutTwice(w: World, fd: nat, c: Conn, d: Conn)
    requires fd < |w.conns|
    ensures Put(Put(w, fd, c), fd, d) == Put(w, fd, d)
  {
    assert w.conns[fd := c][fd := d] == w.conns[fd := d];
  }

  class ConnectionManager {
    var flags: seq<bv8>
    var incoming: seq<seq<byte>>
    var outgoing: seq<seq<byte>>
    var userIds: seq<u32>
    var usernames: seq<Text>
    var interest: map<nat, Interest> // the kernel's epoll registrations
    var db: Database
    ghost var trails: seq<Trail>
    ghost var accepted: seq<Message>
    ghost var handed: set<nat>

    /** The five vectors have one length, which covers every registered descriptor. */
    ghost predicate Valid()
      reads this
    {
      && |flags| == |incoming| == |outgoing| == |userIds| == |usernames| == |trails|
      && (forall i | 0 <= i < |flags| :: Declared(flags[i]))
      && (forall fd | fd in interest :: fd < |flags|)
    }

    ghost function View(): (w: World)
      requires Valid()
      reads this
      ensures |w.conns| == |flags|
    {
      World(Zip(flags, incoming, outgoing, userIds, usernames, interest, trails), db, accepted, handed)
    }

    constructor (db: Database)
      ensures Valid() && View() == Start(db)
    {
      flags := seq(INITIAL_CAPACITY, _ => NONE);
      incoming := seq(INITIAL_CAPACITY, _ => []);
      outgoing := seq(INITIAL_CAPACITY, _ => []);
      userIds := seq(INITIAL_CAPACITY, _ => 0);
      usernames := seq(INITIAL_CAPACITY, _ => DEFAULT_NAME);
      interest := map[];
      this.db := db;
      trails := seq(INITIAL_CAPACITY, _ => NO_TRAIL);
      accepted, handed := [], {};
      new;
      Updates(NONE);
      assert View().conns == Start(db).conns;
    }

    /** One assignment to a slot's flags. */
    method SetFlags(fd: nat, mask: bv8)
      requires Valid() && fd < |flags| && Declared(mask)
      modifies this`flags
      ensures Valid() && flags == old(flags)[fd := mask]
      ensures View() == Put(old(View()), fd, old(View()).conns[fd].(status := Meaning(mask)))
    {
      flags := flags[fd := mask];
      assert View().conns == Put(old(View()), fd, old(View()).conns[fd].(status := Meaning(mask))).conns;
    }

    /** EPOLL_CTL_MOD. */
    method Watch(fd: nat, wanted: Interest)
      requires Valid() && fd < |flags|
      modifies this`interest
      ensures Valid()
      ensures var c := old(View()).conns[fd];
              View() == Put(old(View()), fd, c.(interest := Rewatch(c.interest, wanted)))
    {
      if fd in interest {
        interest := interest[fd := Rewatch(interest[fd], wanted)];
      }
      ghost var c := old(View()).conns[fd];
      assert View().conns == Put(old(View()), fd, c.(interest := Rewatch(c.interest, wanted))).conns;
    }

    /** set_connection_state. */
    method SetConnectionState(fd: nat, next: Mode)
      requires Valid() && fd < |flags|
      modifies this`flags, this`interest
      ensures Valid() && View() == Put(old(View()), fd, SetState(old(View()).conns[fd], next))
    {
      ghost var w := View();
      var mask := NextMask(flags[fd], next);
      SetFlags(fd, mask);
      match next {
        case Reading => Watch(fd, Readable);
        case Writing => Watch(fd, Writable);
        case Closing =>
      }
      PutTwice(w, fd, w.conns[fd].(status := Meaning(mask)), SetState(w.conns[fd], next));
    }

    /** The vectors grow together, with default values. */
    method Resize(size: nat)
      requires Valid() && |flags| <= size
      modifies this
      ensures Valid() && |flags| == size && interest == old(interest)
      ensures View() == old(View()).(conns := Grow(old(View()).conns, size))
    {
      Updates(NONE);
      var more := size - |flags|;
      flags := flags + seq(more, _ => NONE);
      incoming := incoming + seq(more, _ => []);
      outgoing := outgoing + seq(more, _ => []);
      userIds := userIds + seq(more, _ => 0);
      usernames := usernames + seq(more, _ => []);
      trails := trails + seq(more, _ => NO_TRAIL);
      assert View().conns == Grow(old(View()).conns, size);
    }

    /** add_connection, for a descriptor that epoll takes or refuses. */
    method AddConnection(fd: nat, added: bool)
      requires Valid()
      modifies this
      ensures Valid() && View() == Server.AddConnection(old(View()), fd, added)
    {
      handed := handed + {fd};
      if !added {
        return;
      }
      if |flags| <= fd {
        Resize(fd + 1);
      }
      Activate(fd);
    }

    method Activate(fd: nat)
      requires Valid() && fd < |flags|
      modifies this
      ensures Valid() && View() == Put(old(View()), fd, Opened(old(View()).conns[fd]))
    {
      Updates(NONE);
      flags := flags[fd := IS_ACTIVE | WANT_READ];
      interest := interest[fd := Readable];
      trails := trails[fd := trails[fd].(used := true)];
      assert View().conns == Put(old(View()), fd, Opened(old(View()).conns[fd])).conns;
    }

    /** remove_connection. */
    method RemoveConnection(fd: nat)
      requires Valid() && fd < |flags|
      modifies this
      ensures Valid() && View() == Put(old(View()), fd, Removed(old(View()).conns[fd], |old(accepted)|))
    {
      Updates(NONE);
      flags := flags[fd := NONE];
      interest := interest - {fd};
      trails := trails[fd := Removed(old(View()).conns[fd], |accepted|).trail];
      assert View().conns == Put(old(View()), fd, Removed(old(View()).conns[fd], |accepted|)).conns;
    }

    /** Appends a serialised message to an outgoing buffer. */
    method Append(fd: nat, bytes: seq<byte>, ghost m: Message)
      requires Valid() && fd < |flags| && bytes == Serialize(m)
      modifies this`outgoing, this`trails
      ensures Valid() && View() == Put(old(View()), fd, Enqueue(old(View()).conns[fd], m))
    {
      outgoing := outgoing[fd := outgoing[fd] + bytes];
      trails := trails[fd := trails[fd].(enqueued := trails[fd].enqueued + [m])];
      assert View().conns == Put(old(View()), fd, Enqueue(old(View()).conns[fd], m)).conns;
    }

    // ---------- Services ----------

    /** register_user. */
    method RegisterUser(payload: seq<byte>, f: Faults) returns (response: Message)
      requires Valid()
      modifies this`db
      ensures Valid() && Outcome(View(), response) == Server.RegisterUser(old(View()), payload, f)
    {
      var rc, c := ParseCredentialRequest(payload);
      if rc != OK {
        return StatusOnly(REGISTER, rc);
      }
      if f.lookup {
        return StatusOnly(REGISTER, INTERNAL);
      }
      if Lookup(db.rows, Lower(c.username)).Some? {
        return StatusOnly(REGISTER, USER_EXISTS);
      }
      var inserted := Insert(db, c.username, c.password, f.insert);
      if inserted.None? {
        return StatusOnly(REGISTER, INTERNAL);
      }
      var id := UserId(NewRow(db, c.username, c.password));
      db := inserted.value;
      var buffer := new byte[MAX_PAYLOAD];
      var built;
      built, response := BuildAccountResponse(buffer, REGISTER, Account(id, c.username));
      if built != 0 {
        response := StatusOnly(REGISTER, INTERNAL);
      }
    }

    /** login_user. */
    method LoginUser(fd: nat, payload: seq<byte>, f: Faults) returns (response: Message)
      requires Valid() && fd < |flags|
      modifies this
      ensures Valid() && Outcome(View(), response) == Server.LoginUser(old(View()), fd, payload, f)
    {
      var rc, c := ParseCredentialRequest(payload);
      if rc != OK {
        return StatusOnly(LOGIN, rc);
      }
      if f.lookup {
        return StatusOnly(LOGIN, INTERNAL);
      }
      var found := Lookup(db.rows, Lower(c.username));
      if found.None? {
        return StatusOnly(LOGIN, USER_NOT_FOUND);
      }
      var user := found.value;
      if user.password != c.password {
        return StatusOnly(LOGIN, INVALID_CREDENTIALS);
      }
      Authenticate(fd, user);
      var buffer := new byte[MAX_PAYLOAD];
      var built;
      built, response := BuildAccountResponse(buffer, LOGIN, Account(user.id, user.name));
      if built != 0 {
        response := StatusOnly(LOGIN, INTERNAL);
      }
    }

    method Authenticate(fd: nat, user: User)
      requires Valid() && fd < |flags|
      modifies this
      ensures Valid() && View() == Put(old(View()), fd, Authenticated(old(View()).conns[fd], user, |old(accepted)|))
    {
      var mask := AuthMask(flags[fd]);
      userIds := userIds[fd := user.id];
      usernames := usernames[fd := user.name];
      flags := flags[fd := mask];
      trails := trails[fd := Authenticated(old(View()).conns[fd], user, |accepted|).trail];
      assert View().conns == Put(old(View()), fd, Authenticated(old(View()).conns[fd], user, |accepted|)).conns;
    }

    /** The TAG_WORLD_BROADCAST case of handle_broadcast_message. */
    method WorldRequest(fd: nat, payload: seq<byte>) returns (response: Message)
      requires Valid() && fd < |flags|
      modifies this
      ensures Valid() && Outcome(View(), response) == Server.WorldRequest(old(View()), fd, payload)
    {
      var rc, b := ParseWorldBroadcast(payload);
      if rc != OK {
        return StatusOnly(CHAT, rc);
      }
      if b.content == [] {
        return StatusOnly(CHAT, MALFORMED);
      }
      b := b.(sender := usernames[fd]);
      var buffer := new byte[MAX_PAYLOAD];
      var built;
      built, response := BuildWorldMessage(buffer, b);
      if built != 0 {
        return StatusOnly(CHAT, BUILD_FAILED);
      }
      WorldSize(b);
      SendToOthers(fd, response);
      accepted := accepted + [response];
    }

    /** The loop over the table: every authenticated slot but the sender's. */
    method SendToOthers(fd: nat, m: Message)
      requires Valid()
      modifies this`flags, this`interest, this`outgoing, this`trails
      ensures Valid() && View() == old(View()).(conns := FanOut(old(View()).conns, fd, m))
    {
      ghost var w := View();
      var bytes := WriteMessage([], m);
      for i := 0 to |flags|
        invariant Valid() && |flags| == |w.conns|
        invariant View().db == w.db && View().accepted == w.accepted && View().handed == w.handed
        invariant forall k | 0 <= k < i :: View().conns[k] == FanOut(w.conns, fd, m)[k]
        invariant forall k | i <= k < |w.conns| :: View().conns[k] == w.conns[k]
      {
        if HasFlag(flags[i], IS_AUTH) && i != fd {
          NotifySlot(i, bytes, m);
        }
      }
      assert View().conns == FanOut(w.conns, fd, m);
    }

    method NotifySlot(i: nat, bytes: seq<byte>, ghost m: Message)
      requires Valid() && i < |flags| && bytes == Serialize(m)
      modifies this`flags, this`interest, this`outgoing, this`trails
      ensures Valid() && View() == Put(old(View()), i, Notify(old(View()).conns[i], m))
    {
      ghost var w := View();
      Append(i, bytes, m);
      SetConnectionState(i, Writing);
      PutTwice(w, i, Enqueue(w.conns[i], m), Notify(w.conns[i], m));
    }

    /** The TAG_P2P_BROADCAST case of handle_broadcast_message. */
    method P2pRequest(fd: nat, payload: seq<byte>) returns (response: Message)
      requires Valid() && fd < |flags|
      modifies this
      ensures Valid() && Outcome(View(), response) == Server.P2pRequest(old(View()), fd, payload)
    {
      var rc, b := ParseP2pBroadcast(payload);
      if rc != OK {
        return StatusOnly(CHAT, rc);
      }
      if b.content == [] {
        return StatusOnly(CHAT, MALFORMED);
      }
      b := b.(sender := usernames[fd]);
      if b.sender == b.recipient {
        return StatusOnly(CHAT, MALFORMED);
      }
      var buffer := new byte[MAX_PAYLOAD];
      var built;
      built, response := BuildP2pMessage(buffer, b);
      if built != 0 {
        return StatusOnly(CHAT, BUILD_FAILED);
      }
      P2pSize(b);
      var to := FindRecipient(fd, b.recipient);
      if to == -1 {
        return StatusOnly(CHAT, USER_NOT_FOUND);
      }
      var bytes := WriteMessage([], response);
      NotifySlot(to, bytes, response);
    }

    /** The search for the recipient's slot. */
    method FindRecipient(fd: nat, name: Text) returns (to: int)
      requires Valid()
      ensures to == match Recipient(View().conns, fd, name, 0) case None => -1 case Some(i) => i
      ensures to == -1 || 0 <= to < |flags|
      ensures to != -1 ==> to != fd && HasFlag(flags[to], IS_AUTH) && usernames[to] == name
      ensures forall i | 0 <= i < (if to == -1 then |flags| else to) ::
                !(i != fd && HasFlag(flags[i], IS_AUTH) && usernames[i] == name)
    {
      for i := 0 to |flags|
        invariant forall k | 0 <= k < i :: !IsPeer(View().conns, fd, name, k)
        invariant forall k | 0 <= k < i :: !(k != fd && HasFlag(flags[k], IS_AUTH) && usernames[k] == name)
      {
        if HasFlag(flags[i], IS_AUTH) && i != fd && usernames[i] == name {
          assert IsPeer(View().conns, fd, name, i);
          return i;
        }
      }
      return -1;
    }

    /** handle_broadcast_message. */
    method HandleBroadcast(fd: nat, payload: seq<byte>, peek: byte) returns (response: Message)
      requires Valid() && fd < |flags|
      modifies this
      ensures Valid() && Outcome(View(), response) == Broadcast(old(View()), fd, payload, peek)
    {
      if !HasFlag(flags[fd], IS_AUTH) {
        return StatusOnly(CHAT, INVALID_CREDENTIALS);
      }
      if peek == WORLD {
        response := WorldRequest(fd, payload);
      } else if peek == P2P {
        response := P2pRequest(fd, payload);
      } else {
        response := StatusOnly(CHAT, MALFORMED);
      }
    }

    /** The switch over request types in try_one_request. */
    method Serve(fd: nat, m: Message, peek: byte, f: Faults) returns (response: Message)
      requires Valid() && fd < |flags|
      modifies this
      ensures Valid() && Outcome(View(), response) == Handle(old(View()), fd, m, peek, f)
    {
      if m.kind == REGISTER {
        response := RegisterUser(m.payload, f);
      } else if m.kind == LOGIN {
        response := LoginUser(fd, m.payload, f);
      } else if m.kind == CHAT {
        response := HandleBroadcast(fd, m.payload, peek);
      } else {
        response := StatusOnly(m.kind, UNKNOWN_COMMAND);
      }
    }

    // ---------- Events ----------

    /** try_one_request. */
    method TryOneRequest(fd: nat, f: Faults) returns (served: bool)
      requires Valid() && fd < |flags|
      modifies this
      ensures Valid() && Turn(View(), served) == TryOne(old(View()), fd, f)
    {
      var buffer := incoming[fd];
      if |buffer| < HEADER_SIZE + 1 {
        return false;
      }
      var size := LengthField(buffer);
      if size > MAX_PAYLOAD {
        SetConnectionState(fd, Closing);
        return false;
      }
      if Add32(HEADER_SIZE, size) > |buffer| {
        return false;
      }
      var m := Head(buffer);
      var response := Serve(fd, m, buffer[HEADER_SIZE], f);
      Finish(fd, m, response);
      return true;
    }

    /** The request leaves the incoming buffer and its response joins the outgoing one. */
    method Finish(fd: nat, m: Message, response: Message)
      requires Valid() && fd < |flags| && |incoming[fd]| >= HEADER_SIZE + |m.payload|
      modifies this
      ensures Valid() && View() == Put(old(View()), fd, Answer(old(View()).conns[fd], m, response))
    {
      ghost var w := View();
      incoming := incoming[fd := incoming[fd][HEADER_SIZE + |m.payload|..]];
      var appended := WriteMessage(outgoing[fd], response);
      outgoing := outgoing[fd := appended];
      trails := trails[fd := Answer(w.conns[fd], m, response).trail];
      assert View().conns == Put(w, fd, Answer(w.conns[fd], m, response)).conns;
    }

    /** The read loop of handle_read_connection, up to the call that delivers no bytes. */
    method ReceiveAll(fd: nat, chunks: seq<seq<byte>>)
      requires Valid() && fd < |flags|
      modifies this`incoming, this`trails
      ensures Valid() && View() == Put(old(View()), fd, Arrived(old(View()).conns[fd], AllBytes(chunks)))
    {
      ghost var w := View();
      assert w.conns[fd].incoming + [] == w.conns[fd].incoming;
      assert w.conns[fd].trail.received + [] == w.conns[fd].trail.received;
      assert View().conns == Put(w, fd, Arrived(w.conns[fd], AllBytes(chunks[..0]))).conns;
      for k := 0 to |chunks|
        invariant Valid() && |flags| == |w.conns|
        invariant View() == Put(w, fd, Arrived(w.conns[fd], AllBytes(chunks[..k])))
      {
        incoming := incoming[fd := incoming[fd] + chunks[k]];
        trails := trails[fd := trails[fd].(received := trails[fd].received + chunks[k])];
        AllBytesSnoc(chunks[..k], chunks[k]);
        assert chunks[..k + 1] == chunks[..k] + [chunks[k]];
        ArrivedTwice(w.conns[fd], AllBytes(chunks[..k]), chunks[k]);
        assert View().conns == Put(w, fd, Arrived(w.conns[fd], AllBytes(chunks[..k + 1]))).conns;
      }
      assert chunks[..|chunks|] == chunks;
    }

    /** The request loop of handle_read_connection. */
    method ServeAll(fd: nat, faults: seq<Faults>)
      requires Valid() && fd < |flags|
      modifies this
      ensures Valid() && View() == Drain(old(View()), fd, faults)
    {
      ghost var w := View();
      var rest := faults;
      var more := true;
      while more
        invariant Valid() && |flags| == |w.conns|
        invariant Drain(w, fd, faults) == if more then Drain(View(), fd, rest) else View()
        decreases more, |incoming[fd]|
      {
        ghost var v := View();
        more := TryOneRequest(fd, FirstFaults(rest));
        rest := LaterFaults(rest);
        assert |View().conns| == |v.conns|;
      }
    }

    /** handle_read_connection. */
    method HandleReadConnection(fd: nat, chunks: seq<seq<byte>>, end: ReadEnd, faults: seq<Faults>)
      requires Valid() && fd < |flags|
      modifies this
      ensures Valid() && View() == HandleRead(old(View()), fd, chunks, end, faults)
    {
      ghost var w := View();
      ReceiveAll(fd, chunks);
      if !end.WouldBlock? {
        Abort(fd);
        PutTwice(w, fd, Arrived(w.conns[fd], AllBytes(chunks)), View().conns[fd]);
        return;
      }
      ServeAll(fd, faults);
      if |outgoing[fd]| > 0 {
        SetConnectionState(fd, Writing);
      }
    }

    /** The CLOSING state after end of file or a failed call. */
    method Abort(fd: nat)
      requires Valid() && fd < |flags|
      modifies this`flags, this`interest, this`trails
      ensures Valid() && View() == Put(old(View()), fd, Aborted(SetState(old(View()).conns[fd], Closing)))
    {
      ghost var w := View();
      SetConnectionState(fd, Closing);
      trails := trails[fd := trails[fd].(aborted := true)];
      assert View().conns == Put(w, fd, Aborted(SetState(w.conns[fd], Closing))).conns;
    }

    /** handle_write_connection. */
    method HandleWriteConnection(fd: nat, counts: seq<nat>, fails: bool)
      requires Valid() && fd < |flags|
      modifies this
      ensures Valid() && View() == Put(old(View()), fd, Flush(old(View()).conns[fd], counts, fails))
    {
      ghost var w := View();
      assert View().conns == Put(w, fd, w.conns[fd]).conns;
      for k := 0 to |counts|
        invariant Valid() && |flags| == |w.conns|
        invariant View() == Put(w, fd, View().conns[fd])
        invariant Flush(w.conns[fd], counts, fails) == Flush(View().conns[fd], counts[k..], fails)
      {
        ghost var c := View().conns[fd];
        TakeWritten(fd, Min(counts[k], |outgoing[fd]|));
        assert counts[k..][1..] == counts[k + 1..];
        PutTwice(w, fd, c, View().conns[fd]);
        if outgoing[fd] == [] {
          c := View().conns[fd];
          SetConnectionState(fd, Reading);
          PutTwice(w, fd, c, View().conns[fd]);
          return;
        }
      }
      if fails {
        ghost var c := View().conns[fd];
        Abort(fd);
        PutTwice(w, fd, c, View().conns[fd]);
      }
    }

    /** buf_consume after a write took some bytes. */
    method TakeWritten(fd: nat, n: nat)
      requires Valid() && fd < |flags| && n <= |outgoing[fd]|
      modifies this`outgoing, this`trails
      ensures Valid() && View() == Put(old(View()), fd, Flushed(old(View()).conns[fd], n))
    {
      trails := trails[fd := trails[fd].(written := trails[fd].written + outgoing[fd][..n])];
      outgoing := outgoing[fd := outgoing[fd][n..]];
      assert View().conns == Put(old(View()), fd, Flushed(old(View()).conns[fd], n)).conns;
    }

    /** The body of the event loop for a connection: read, then write, then close. */
    method DispatchEvent(fd: nat, io: Io)
      requires Valid() && fd < |flags|
      modifies this
      ensures Valid() && View() == Dispatch(old(View()), fd, io)
    {
      if HasFlag(flags[fd], WANT_READ) {
        HandleReadConnection(fd, io.chunks, io.end, io.faults);
      }
      WriteThenCloseConnection(fd, io);
    }

    method WriteThenCloseConnection(fd: nat, io: Io)
      requires Valid() && fd < |flags|
      modifies this
      ensures Valid() && View() == WriteThenClose(old(View()), fd, io)
    {
      ghost var w := View();
      if HasFlag(flags[fd], WANT_WRITE) {
        HandleWriteConnection(fd, io.counts, io.writeFails);
      }
      ghost var c := View().conns[fd];
      assert View() == Put(w, fd, c) by {
        assert w.conns == w.conns[fd := w.conns[fd]];
      }
      if io.error || HasFlag(flags[fd], WANT_CLOSE) {
        NoteError(fd, io.error);
        ghost var e := View().conns[fd];
        PutTwice(w, fd, c, e);
        RemoveConnection(fd);
        PutTwice(w, fd, e, View().conns[fd]);
      }
    }

    /** The trail of EPOLLERR. */
    ghost method NoteError(fd: nat, error: bool)
      requires Valid() && fd < |flags|
      modifies this`trails
      ensures Valid()
      ensures var c := old(View()).conns[fd]; View() == Put(old(View()), fd, if error then Aborted(c) else c)
    {
      if error {
        trails := trails[fd := trails[fd].(aborted := true)];
      }
      ghost var c := old(View()).conns[fd];
      assert View().conns == Put(old(View()), fd, if error then Aborted(c) else c).conns;
    }

    /** The event loop, over any events the kernel can report. */
    method EventLoop(events: seq<Event>)
      requires Valid() && Possible(View(), events)
      modifies this
      ensures Valid() && View() == Run(old(View()), events)
    {
      ghost var w := View();
      for k := 0 to |events|
        invariant Valid() && Possible(View(), events[k..])
        invariant Run(w, events) == Run(View(), events[k..])
      {
        assert events[k..][0] == events[k] && events[k..][1..] == events[k + 1..];
        match events[k] {
          case Connected(fd, added) => AddConnection(fd, added);
          case Polled(fd, io) => DispatchEvent(fd, io);
        }
      }
    }

    /** The counting loop of log_server_metrics. */
    method CountConnections() returns (connected: nat, authenticated: nat)
      requires Valid()
      ensures authenticated == NumAuth(View().conns) && connected == NumActive(View().conns)
    {
      connected, authenticated := 0, 0;
      for i := 0 to |flags|
        invariant connected == NumActive(View().conns[..i]) && authenticated == NumAuth(View().conns[..i])
      {
        assert View().conns[..i + 1] == View().conns[..i] + [View().conns[i]];
        if !HasFlag(flags[i], IS_ACTIVE) {
          continue;
        }
        connected := connected + 1;
        if !HasFlag(flags[i], IS_AUTH) {
          continue;
        }
        authenticated := authenticated + 1;
      }
      assert View().conns[..|flags|] == View().conns;
    }
  }

  lemma {:induction false} AllBytesSnoc(chunks: seq<seq<byte>>, chunk: seq<byte>)
    ensures AllBytes(chunks + [chunk]) == AllBytes(chunks) + chunk
  {
    if chunks == [] {
      assert AllBytes([chunk]) == chunk + AllBytes([]);
    } else {
      AllBytesSnoc(chunks[1..], chunk);
      assert (chunks + [chunk])[1..] == chunks[1..] + [chunk];
      assert chunks[0] + (AllBytes(chunks[1..]) + chunk) == chunks[0] + AllBytes(chunks[1..]) + chunk;
    }
  }

  lemma {:induction false} ArrivedTwice(c: Conn, a: seq<byte>, b: seq<byte>)
    ensures Arrived(Arrived(c, a), b) == Arrived(c, a + b)
  {
    assert c.incoming + a + b == c.incoming + (a + b);
    assert c.trail.received + a + b == c.trail.received + (a + b);
  }

  /**
   * A server that has handled any events the kernel can report is in a reachable
   * state, with one of five masks per slot.
   */
  method RunServer(db: Database, events: seq<Event>) returns (manager: ConnectionManager)
    requires AccountsOk(db) && Possible(Start(db), events)
    ensures fresh(manager) && manager.Valid()
    ensures manager.View() == Run(Start(db), events) && Reachable(manager.View())
    ensures forall i | 0 <= i < |manager.flags| ::
              manager.flags[i] in {NONE, IS_ACTIVE | WANT_READ, IS_ACTIVE | WANT_WRITE,
                                   IS_ACTIVE | IS_AUTH | WANT_READ, IS_ACTIVE | IS_AUTH | WANT_WRITE}
  {
    manager := new ConnectionManager(db);
    manager.EventLoop(events);
    forall i | 0 <= i < |manager.flags|
      ensures manager.flags[i] in {NONE, IS_ACTIVE | WANT_READ, IS_ACTIVE | WANT_WRITE,
                                   IS_ACTIVE | IS_AUTH | WANT_READ, IS_ACTIVE | IS_AUTH | WANT_WRITE}
    {
      Theorems.EventBoundary(manager.View(), i);
      RestingMasks(manager.flags[i]);
    }
  }
}
