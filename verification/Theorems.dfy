/** What the server guarantees over every run. */
module Theorems {
  import opened Bytes
  import opened Frames
  import opened Payloads
  import opened Flags
  import opened Accounts
  import opened Server
  import opened Invariants
  import opened Preservation
  import opened Histories
  import opened Provenance
  import opened Transfer

  // ---------- Order of world broadcasts ----------

  /**
   * Between two moments at which a connection is authenticated, it is sent exactly
   * the world broadcasts accepted in between, once each and in the order of their
   * acceptance.
   */
  lemma {:induction false} MemberReceivesLog(w: World, es: seq<Event>, v: World, i: nat)
    requires Reachable(w) && Possible(w, es) && v == Run(w, es) && i < |w.conns|
    requires w.conns[i].status.auth && v.conns[i].status.auth
    ensures w.accepted <= v.accepted
    ensures Worlds(v.conns[i].trail.enqueued) == Worlds(w.conns[i].trail.enqueued) + v.accepted[|w.accepted|..]
  {
    LaterState(w, es, v);
    MemberStretch(w, v, i);
  }

  lemma {:induction false} MemberStretch(w: World, v: World, i: nat)
    requires Inv(w) && Inv(v) && Grew(w, v) && i < |w.conns|
    requires w.conns[i].status.auth && v.conns[i].status.auth
    ensures Worlds(v.conns[i].trail.enqueued) == Worlds(w.conns[i].trail.enqueued) + v.accepted[|w.accepted|..]
  {
    StretchOfLog(w, v, i);
    assert ConnOk(w.db, w.accepted, w.conns[i]) && ConnOk(v.db, v.accepted, v.conns[i]);
    assert v.accepted[|w.accepted|..|v.accepted|] == v.accepted[|w.accepted|..];
  }

  lemma {:induction false} LaterState(w: World, es: seq<Event>, v: World)
    requires Reachable(w) && Possible(w, es) && v == Run(w, es)
    ensures Inv(w) && Inv(v) && Grew(w, v)
  {
    ReachableOk(w);
    RunKeeps(w, es);
    RunGrew(w, es);
  }

  /**
   * In every reachable state, what a connection has been sent is exactly the part of
   * the log its session covers: nothing if it never logged in, everything accepted
   * since it logged in, or everything accepted until it was removed.
   */
  lemma {:induction false} SessionBroadcasts(w: World, i: nat)
    requires Reachable(w) && i < |w.conns|
    ensures var c, got := w.conns[i], Worlds(w.conns[i].trail.enqueued);
            && (c.status.auth <==> c.trail.session.Member?)
            && match c.trail.session
               case Anonymous => got == []
               case Member(since) => since <= |w.accepted| && got == w.accepted[since..]
               case Former(since, until) => since <= until <= |w.accepted| && got == w.accepted[since..until]
  {
    ReachableOk(w);
    assert ConnOk(w.db, w.accepted, w.conns[i]);
  }

  /**
   * A session starts with the request whose credentials are accepted, at the length
   * the log has then; so broadcasts pipelined behind a login are in it.
   */
  lemma {:induction false} SessionStarts(w: World, fd: nat, f: Faults)
    requires InService(w, fd) && !w.conns[fd].status.auth
    ensures var c, t := w.conns[fd], TryOne(w, fd, f);
            var d := t.world.conns[fd];
            && (d.status.auth <==>
                  && Examine(c.incoming).Ready? && Examine(c.incoming).frame.kind == LOGIN
                  && LoginUser(w, fd, Examine(c.incoming).frame.payload, f).response.rc == OK)
            && (d.status.auth ==> d.trail.session == Member(|w.accepted|) && t.world.accepted == w.accepted)
  {
    var c := w.conns[fd];
    assert !c.trail.session.Member? by { assert ConnOk(w.db, w.accepted, c); }
    if Examine(c.incoming).Ready? {
      HandleSession(w, fd, Examine(c.incoming).frame, c.incoming[HEADER_SIZE], f);
    }
  }

  lemma {:induction false} HandleSession(w: World, fd: nat, m: Message, peek: byte, f: Faults)
    requires fd < |w.conns| && !w.conns[fd].status.auth && !w.conns[fd].trail.session.Member?
    ensures var v := Handle(w, fd, m, peek, f).world;
            var d := v.conns[fd];
            && (d.status.auth <==> m.kind == LOGIN && LoginUser(w, fd, m.payload, f).response.rc == OK)
            && (d.status.auth ==> d.trail.session == Member(|w.accepted|) && v.accepted == w.accepted)
  {
  }

  /**
   * A session ends with the removal of its connection, at the length the log has
   * then, so broadcasts accepted before a close in the same event are in it; events
   * on other descriptors neither start nor end it.
   */
  lemma {:induction false} SessionEnds(w: World, fd: nat, io: Io)
    requires Reachable(w) && Enabled(w, Polled(fd, io))
    ensures var v := Dispatch(w, fd, io);
            var s := v.conns[fd].trail.session;
            && (s.Former? ==> !v.conns[fd].status.active && s.until == |v.accepted|)
            && (w.conns[fd].trail.session.Member? ==>
                  if v.conns[fd].status.active then s == w.conns[fd].trail.session
                  else s == Former(w.conns[fd].trail.session.since, |v.accepted|))
            && (forall i | 0 <= i < |w.conns| && i != fd :: v.conns[i].trail.session == w.conns[i].trail.session)
  {
    ReachableOk(w);
    EventIsolated(w, fd, io);
    assert forall i | 0 <= i < |w.conns| && i != fd :: OnlyNotified(w.conns[i], Dispatch(w, fd, io).conns[i]);
    SessionAfter(w, fd, io);
  }

  lemma {:induction false} SessionAfter(w: World, fd: nat, io: Io)
    requires Inv(w) && Enabled(w, Polled(fd, io))
    ensures var v := Dispatch(w, fd, io);
            var s := v.conns[fd].trail.session;
            && (s.Former? ==> !v.conns[fd].status.active && s.until == |v.accepted|)
            && (w.conns[fd].trail.session.Member? ==>
                  if v.conns[fd].status.active then s == w.conns[fd].trail.session
                  else s == Former(w.conns[fd].trail.session.since, |v.accepted|))
  {
    var v := Dispatch(w, fd, io);
    DispatchKeeps(w, fd, io);
    DispatchGrew(w, fd, io);
    LastStamp(w, fd, io);
    var c, d := w.conns[fd], v.conns[fd];
    assert ConnGrew(c, d, |w.accepted|);
    assert InOrder(v.accepted, d) && Resting(d) by { assert ConnOk(v.db, v.accepted, d); }
  }

  lemma {:induction false} LastStamp(w: World, fd: nat, io: Io)
    requires Inv(w) && Enabled(w, Polled(fd, io))
    ensures var v := Dispatch(w, fd, io);
            v.conns[fd].trail.session.Former? ==> v.conns[fd].trail.session.until == |v.accepted|
  {
    if w.conns[fd].status.wantRead {
      HandleReadKeeps(w, fd, io.chunks, io.end, io.faults);
      ClosingStamps(HandleRead(w, fd, io.chunks, io.end, io.faults), fd, io);
    } else {
      ClosingStamps(w, fd, io);
    }
  }

  lemma {:induction false} ClosingStamps(r: World, fd: nat, io: Io)
    requires fd < |r.conns| && AllOk(r) && r.conns[fd].status.active
    ensures var v := WriteThenClose(r, fd, io);
            v.conns[fd].trail.session.Former? ==> v.conns[fd].trail.session.until == |v.accepted|
  {
    assert ConnOk(r.db, r.accepted, r.conns[fd]);
    FlushGrew(r.conns[fd], io.counts, io.writeFails, |r.accepted|);
  }

  /** The position in the log at which the broadcasts of a later time stop, given the session then and before. */
  function LastPoint(s: Session, t: Session, log: nat): nat {
    if t.Former? && !s.Former? then t.until else log
  }

  /** The position at which they start. */
  function FirstPoint(s: Session, t: Session, before: nat, log: nat): nat {
    if s.Member? then before
    else if s.Anonymous? && !t.Anonymous? then t.since
    else LastPoint(s, t, log)
  }

  /**
   * Over any stretch of a run, a connection is sent exactly the part of the log that
   * was accepted from its login, or the start of the stretch, to its removal, or the
   * end of the stretch.
   */
  lemma {:induction false} NewBroadcastsInOrder(w: World, es: seq<Event>, v: World, i: nat)
    requires Reachable(w) && Possible(w, es) && v == Run(w, es) && i < |w.conns|
    ensures var s, t := w.conns[i].trail.session, v.conns[i].trail.session;
            var a, b := FirstPoint(s, t, |w.accepted|, |v.accepted|), LastPoint(s, t, |v.accepted|);
            && |w.accepted| <= a <= b <= |v.accepted|
            && Worlds(v.conns[i].trail.enqueued) == Worlds(w.conns[i].trail.enqueued) + v.accepted[a..b]
  {
    LaterState(w, es, v);
    StretchOfLog(w, v, i);
  }

  lemma {:induction false} StretchOfLog(w: World, v: World, i: nat)
    requires Inv(w) && Inv(v) && Grew(w, v) && i < |w.conns|
    ensures var s, t := w.conns[i].trail.session, v.conns[i].trail.session;
            var a, b := FirstPoint(s, t, |w.accepted|, |v.accepted|), LastPoint(s, t, |v.accepted|);
            && |w.accepted| <= a <= b <= |v.accepted|
            && Worlds(v.conns[i].trail.enqueued) == Worlds(w.conns[i].trail.enqueued) + v.accepted[a..b]
  {
    assert ConnOk(w.db, w.accepted, w.conns[i]) && ConnOk(v.db, v.accepted, v.conns[i]);
    assert ConnGrew(w.conns[i], v.conns[i], |w.accepted|);
    LogStretch(w.accepted, v.accepted, w.conns[i].trail.session, v.conns[i].trail.session);
  }

  lemma {:induction false} LogStretch(log: seq<Message>, later: seq<Message>, s: Session, t: Session)
    requires log <= later && Covered(log, s).Some? && Covered(later, t).Some?
    requires SessionGrew(s, t, |log|)
    ensures var a, b := FirstPoint(s, t, |log|, |later|), LastPoint(s, t, |later|);
            |log| <= a <= b <= |later| && Covered(later, t).value == Covered(log, s).value + later[a..b]
  {
    var a, b := FirstPoint(s, t, |log|, |later|), LastPoint(s, t, |later|);
    if s.Member? {
      assert later[s.since..b] == log[s.since..] + later[a..b];
    } else if s.Former? {
      assert later[s.since..s.until] == log[s.since..s.until] + [];
    } else if !t.Anonymous? {
      assert later[t.since..b] == [] + later[a..b];
    }
  }

  /** Of two authenticated connections, the one that joined later has seen a suffix of what the other has seen. */
  lemma {:induction false} MembersAgree(w: World, i: nat, j: nat)
    requires Reachable(w) && i < |w.conns| && j < |w.conns|
    requires w.conns[i].status.auth && w.conns[j].status.auth
    ensures var x, y := Worlds(w.conns[i].trail.enqueued), Worlds(w.conns[j].trail.enqueued);
            if |x| <= |y| then x == y[|y| - |x|..] else y == x[|x| - |y|..]
  {
    SessionBroadcasts(w, i);
    SessionBroadcasts(w, j);
    SuffixesOfLog(w.accepted, w.conns[i].trail.session.since, w.conns[j].trail.session.since);
  }

  lemma {:induction false} SuffixesOfLog(log: seq<Message>, a: nat, b: nat)
    requires a <= |log| && b <= |log|
    ensures b <= a ==> log[a..] == log[b..][a - b..]
    ensures a <= b ==> log[b..] == log[a..][b - a..]
  {
  }

  // ---------- Delivery ----------

  /**
   * However the writes were cut short, the bytes on a socket are a prefix of the
   * messages enqueued for it, reading them gives those messages in order, and
   * nothing is missing once the outgoing buffer is empty.
   */
  lemma {:induction false} Delivered(w: World, i: nat)
    requires Reachable(w) && i < |w.conns|
    ensures var t := w.conns[i].trail;
            && t.written <= Concat(t.enqueued)
            && TakeAll(t.written) <= t.enqueued
            && (w.conns[i].outgoing == [] ==> TakeAll(t.written) == t.enqueued)
  {
    ReachableOk(w);
    assert ConnOk(w.db, w.accepted, w.conns[i]);
    TakeAllOfPrefix(w.conns[i].trail.enqueued, w.conns[i].trail.written);
  }

  function Sum(counts: seq<nat>): nat {
    if counts == [] then 0 else counts[0] + Sum(counts[1..])
  }

  /** A write event moves exactly the bytes the socket takes, oldest first, and asks to read again once all are gone. */
  lemma {:induction false} FlushExact(c: Conn, counts: seq<nat>, fails: bool)
    requires c.outgoing != []
    ensures var n := Min(Sum(counts), |c.outgoing|);
            var d := Flush(c, counts, fails);
            && d.trail.written == c.trail.written + c.outgoing[..n] && d.outgoing == c.outgoing[n..]
            && (d.outgoing == [] ==> d.status == c.status.(wantRead := true, wantWrite := false))
            && (d.outgoing != [] ==> d.status == (if fails then c.status.(wantClose := true) else c.status))
    decreases |counts|
  {
    if counts == [] {
      assert c.trail.written + c.outgoing[..0] == c.trail.written;
    } else {
      var k := Min(counts[0], |c.outgoing|);
      var d := Flushed(c, k);
      if d.outgoing != [] {
        FlushExact(d, counts[1..], fails);
        TakenTwice(counts, |c.outgoing|);
        MovedTwice(c.trail.written, c.outgoing, k, Min(Sum(counts[1..]), |d.outgoing|));
      } else {
        assert Min(Sum(counts), |c.outgoing|) == k;
      }
    }
  }

  lemma {:induction false} TakenTwice(counts: seq<nat>, pending: nat)
    requires counts != [] && counts[0] < pending
    ensures Min(Sum(counts), pending) == counts[0] + Min(Sum(counts[1..]), pending - counts[0])
  {
  }

  lemma {:induction false} MovedTwice(written: seq<byte>, pending: seq<byte>, k: nat, j: nat)
    requires k + j <= |pending|
    ensures written + pending[..k] + pending[k..][..j] == written + pending[..k + j]
    ensures pending[k..][j..] == pending[k + j..]
  {
    assert pending[..k] + pending[k..][..j] == pending[..k + j];
  }

  /**
   * A client that reads what the server wrote, under any short reads, signals and
   * failures, gets those messages in order; nothing is missing at the end unless its
   * socket failed or a signal cut a payload short.
   */
  method ClientReceives(ghost w: World, ghost i: nat, s: Socket) returns (ms: seq<Message>, ghost cut: bool)
    requires Reachable(w) && i < |w.conns|
    requires s.unread == w.conns[i].trail.written
    modifies s
    ensures ms <= w.conns[i].trail.enqueued
    ensures w.conns[i].outgoing == [] && !s.faulty && !cut ==> ms == w.conns[i].trail.enqueued
    ensures s.faulty == old(s.faulty) && (cut ==> s.signals < old(s.signals))
  {
    ms, cut := ReadMessages(s);
    Delivered(w, i);
  }

  // ---------- Independence of chunking ----------

  /**
   * What a connection that suffered no abort has been served, and whether it is
   * still open, depend only on the bytes it has sent; not on how reads and events
   * cut them up, nor on anything else that happened.
   */
  lemma {:induction false} ChunkingIrrelevant(w: World, i: nat)
    requires Reachable(w) && i < |w.conns|
    requires w.conns[i].trail.used && !w.conns[i].trail.aborted
    ensures var d := Decode(w.conns[i].trail.received);
            && w.conns[i].trail.served == d.frames
            && w.conns[i].incoming == d.rest
            && (w.conns[i].status.active <==> !d.oversize)
            && w.conns[i].trail.received == Concat(w.conns[i].trail.served) + w.conns[i].incoming
  {
    ReachableOk(w);
    DecodeConserves(w.conns[i].trail.received);
    assert ConnOk(w.db, w.accepted, w.conns[i]) && Resting(w.conns[i]);
    assert w.conns[i].trail.served + [] == w.conns[i].trail.served;
  }

  /**
   * So two connections of any two runs that sent the same bytes were served the same
   * requests and met the same fate.
   */
  lemma {:induction false} SameBytesSameRequests(v: World, i: nat, w: World, j: nat)
    requires Reachable(v) && i < |v.conns| && v.conns[i].trail.used && !v.conns[i].trail.aborted
    requires Reachable(w) && j < |w.conns| && w.conns[j].trail.used && !w.conns[j].trail.aborted
    requires v.conns[i].trail.received == w.conns[j].trail.received
    ensures v.conns[i].trail.served == w.conns[j].trail.served
    ensures v.conns[i].incoming == w.conns[j].incoming
    ensures v.conns[i].status.active <==> w.conns[j].status.active
  {
    ChunkingIrrelevant(v, i);
    ChunkingIrrelevant(w, j);
  }

  /**
   * One event serves every request that is complete in what was held and what
   * arrived, and closes on an oversized one.
   */
  lemma {:induction false} EventServes(w: World, fd: nat, chunks: seq<seq<byte>>, fs: seq<Faults>)
    requires Reachable(w) && fd < |w.conns| && w.conns[fd].status.wantRead
    ensures var d := Decode(w.conns[fd].incoming + AllBytes(chunks));
            var c := HandleRead(w, fd, chunks, WouldBlock, fs).conns[fd];
            && c.trail.served == w.conns[fd].trail.served + d.frames
            && c.incoming == d.rest
            && (c.status.wantClose <==> d.oversize)
  {
    ReachableOk(w);
    var c := w.conns[fd];
    var arrived := Arrived(c, AllBytes(chunks));
    ArrivedKeeps(w.db, w.accepted, c, AllBytes(chunks));
    PutKeeps(w, fd, arrived);
    DrainServes(Put(w, fd, arrived), fd, fs);
    var r := Drain(Put(w, fd, arrived), fd, fs);
    assert HandleRead(w, fd, chunks, WouldBlock, fs).conns[fd] ==
           if r.conns[fd].outgoing != [] then SetState(r.conns[fd], Writing) else r.conns[fd];
  }

  lemma {:induction false} DrainServes(w: World, fd: nat, fs: seq<Faults>)
    requires InService(w, fd)
    ensures var d := Decode(w.conns[fd].incoming);
            var c := Drain(w, fd, fs).conns[fd];
            && c.trail.served == w.conns[fd].trail.served + d.frames
            && c.incoming == d.rest && (c.status.wantClose <==> d.oversize)
  {
    DrainKeeps(w, fd, fs);
    DrainMovesNothing(w, fd, fs);
    var r := Drain(w, fd, fs);
    var c, d := w.conns[fd], r.conns[fd];
    assert InputKept(c) by { assert ConnOk(w.db, w.accepted, c); }
    assert InputKept(d) by { assert ConnOk(r.db, r.accepted, d); }
    assert d.trail.served + [] == d.trail.served;
  }

  /** The request loop neither reads nor writes. */
  lemma {:induction false} DrainMovesNothing(w: World, fd: nat, fs: seq<Faults>)
    requires InService(w, fd)
    ensures var t := Drain(w, fd, fs).conns[fd].trail;
            t.received == w.conns[fd].trail.received && t.written == w.conns[fd].trail.written
    decreases |w.conns[fd].incoming|
  {
    var t := TryOne(w, fd, FirstFaults(fs));
    TryOneKeeps(w, fd, FirstFaults(fs));
    if Examine(w.conns[fd].incoming).Ready? {
      HandledBuffers(w, fd, Examine(w.conns[fd].incoming).frame, w.conns[fd].incoming[HEADER_SIZE], FirstFaults(fs));
    }
    if t.served {
      DrainMovesNothing(t.world, fd, LaterFaults(fs));
    }
  }

  /** Requests pipelined to an idle connection are all served at once, but for a last one without payload. */
  lemma {:induction false} PipelineServed(w: World, fd: nat, ms: seq<Message>, chunks: seq<seq<byte>>, fs: seq<Faults>)
    requires Reachable(w) && fd < |w.conns| && w.conns[fd].status.wantRead && w.conns[fd].incoming == []
    requires InLimit(ms) && AllBytes(chunks) == Concat(ms)
    ensures var held := if ms != [] && ms[|ms| - 1].payload == [] then 1 else 0;
            var c := HandleRead(w, fd, chunks, WouldBlock, fs).conns[fd];
            c.trail.served == w.conns[fd].trail.served + ms[..|ms| - held] && !c.status.wantClose
  {
    EventServes(w, fd, chunks, fs);
    DecodePipelined(ms);
    assert [] + AllBytes(chunks) == Concat(ms);
  }

  /**
   * On any connection, every request got exactly one answer, in order and of its own
   * kind, and that answer is what its handler responded in the state the request was
   * served in; all else that was sent is a notification.
   */
  lemma {:induction false} OneAnswerEach(db: Database, es: seq<Event>, v: World, i: nat)
    requires AccountsOk(db) && Possible(Start(db), es) && v == Run(Start(db), es) && i < |v.conns|
    ensures var t := v.conns[i].trail;
            && |t.replies| == |t.served|
            && (forall k | 0 <= k < |t.served| ::
                  t.replies[k] < |t.enqueued| && t.enqueued[t.replies[k]].kind == t.served[k].kind)
            && (forall j, k | 0 <= j < k < |t.replies| :: t.replies[j] < t.replies[k])
            && (forall p | 0 <= p < |t.enqueued| && p !in t.replies :: IsNotification(t.enqueued[p]))
    ensures AnswersMatch(v.conns[i]) && Exchanges(v.conns[i]) == RunExchanges(Start(db), es, i)
  {
    var w := Start(db);
    StartOk(db);
    RunKeeps(w, es);
    assert AnswersMatch(v.conns[i]) by { assert ConnOk(v.db, v.accepted, v.conns[i]); }
    RunExchanged(w, es, i);
    NoHistory(db, i);
    assert [] + RunExchanges(w, es, i) == RunExchanges(w, es, i);
  }

  lemma {:induction false} NoHistory(db: Database, i: nat)
    ensures History(Start(db), i) == []
  {
  }

  // ---------- Between two events ----------

  /** The state of a slot between events, its kernel registration, and the bounds on what it holds. */
  lemma {:induction false} EventBoundary(w: World, i: nat)
    requires Reachable(w) && i < |w.conns|
    ensures var c := w.conns[i];
            && (c.status == IDLE || (c.status.active && !c.status.wantClose && c.status.wantRead != c.status.wantWrite))
            && (c.status.auth ==> c.status.active)
            && (c.status.active ==> (c.status.wantWrite <==> c.outgoing != []))
            && c.interest == (if !c.status.active then Unwatched else if c.status.wantWrite then Writable else Readable)
            && (c.status.active ==> Examine(c.incoming).NeedMore? && |c.incoming| <= 4102)
  {
    ReachableOk(w);
    var c := w.conns[i];
    assert Resting(c) && ConnOk(w.db, w.accepted, c);
    if c.status.active {
      DecodeConserves(c.incoming);
    }
  }

  /** Nothing the server enqueues carries an undeclared response code or a payload above 327 bytes. */
  lemma {:induction false} ResponsesSane(w: World, i: nat, k: nat)
    requires Reachable(w) && i < |w.conns| && k < |w.conns[i].trail.enqueued|
    ensures var m := w.conns[i].trail.enqueued[k];
            m.version == 1 && m.rc <= 6 && |m.payload| <= 327 && Take(Serialize(m)) == Some(Received(m, []))
  {
    ReachableOk(w);
    assert ConnOk(w.db, w.accepted, w.conns[i]);
    var m := w.conns[i].trail.enqueued[k];
    assert Sane(m);
    TakeSerialized(m, []);
    assert Serialize(m) + [] == Serialize(m);
  }

  /**
   * Accounts stay distinct up to letter case, and a slot is authenticated only after
   * a login request on that very connection whose credentials are those of the
   * stored account it carries.
   */
  lemma {:induction false} IdentitiesSound(w: World, i: nat)
    requires Reachable(w) && i < |w.conns|
    ensures AccountsOk(w.db)
    ensures w.conns[i].status.auth ==>
              && |w.conns[i].username| <= MAX_NAME
              && exists k | 0 <= k < |w.conns[i].trail.served| ::
                   Admits(w.db.rows, w.conns[i].trail.served[k], w.conns[i].userId, w.conns[i].username)
  {
    ReachableOk(w);
    ReachableGrounded(w);
    assert ConnOk(w.db, w.accepted, w.conns[i]) && Credible(w.db.rows, w.conns[i]);
  }

  /** Whatever was ever broadcast parses as a non-empty content within its limit from the name of a stored account. */
  lemma {:induction false} LogIsGenuine(w: World, k: nat)
    requires Reachable(w) && k < |w.accepted|
    ensures ParseWorld(w.accepted[k].payload).Some?
    ensures var b := ParseWorld(w.accepted[k].payload).value;
            && w.accepted[k] == WorldMessage(b)
            && 0 < |b.content| <= 255
            && exists r :: r in w.db.rows && r.name == b.sender
  {
    ReachableGrounded(w);
    assert Genuine(w.db.rows, w.accepted[k]);
  }
}
