/** What each event does to the connection it is about, exactly, in terms of what the kernel delivered and took. */
module Events {
  import opened Bytes
  import opened Frames
  import opened Flags
  import opened Server
  import opened Invariants
  import opened Preservation
  import opened Histories
  import opened Provenance
  import opened Theorems

  // ---------- New connections ----------

  /**
   * A descriptor that epoll takes becomes an active, unauthenticated connection that
   * waits to read, with nothing in its buffers; the table grows to cover it. Nothing
   * else changes, and nothing at all when epoll refuses it.
   */
  lemma {:induction false} ConnectionOpens(w: World, fd: nat)
    requires Reachable(w) && fd !in w.handed
    ensures var v := Step(w, Connected(fd, true));
            && |v.conns| == (if fd < |w.conns| then |w.conns| else fd + 1)
            && v.conns[fd].status == Status(true, false, false, true, false)
            && v.conns[fd].interest == Readable
            && v.conns[fd].incoming == [] && v.conns[fd].outgoing == []
            && v.conns[fd].trail == Trail(true, false, [], [], [], [], [], Anonymous)
            && (forall i | 0 <= i < |w.conns| && i != fd :: v.conns[i] == w.conns[i])
            && (forall i | |w.conns| <= i < |v.conns| && i != fd ::
                  v.conns[i].status == IDLE && v.conns[i].interest == Unwatched)
            && v.db == w.db && v.accepted == w.accepted && v.handed == w.handed + {fd}
    ensures Step(w, Connected(fd, false)) == w.(handed := w.handed + {fd})
  {
    ReachableOk(w);
    var conns := Grow(w.conns, fd + 1);
    if fd < |w.conns| {
      assert Resting(w.conns[fd]) && !w.conns[fd].trail.used;
    }
    assert Untouched(conns[fd]);
  }

  // ---------- Reading ----------

  /** Whether the reading of an event ends the connection. */
  predicate ReadAborts(c: Conn, io: Io) {
    c.status.wantRead && !io.end.WouldBlock?
  }

  /** The table after the first half of an event. */
  function AfterReading(w: World, fd: nat, io: Io): (r: World)
    requires fd < |w.conns|
    ensures |r.conns| == |w.conns|
  {
    if w.conns[fd].status.wantRead then HandleRead(w, fd, io.chunks, io.end, io.faults) else w
  }

  /** The reading takes what arrived, serves what is complete in it, and writes nothing. */
  lemma {:induction false} ReadingExact(w: World, fd: nat, io: Io)
    requires Reachable(w) && Enabled(w, Polled(fd, io))
    ensures var c, d := w.conns[fd], AfterReading(w, fd, io).conns[fd];
            var got := if c.status.wantRead then AllBytes(io.chunks) else [];
            var decoded := Decode(c.incoming + got);
            && d.trail.received == c.trail.received + got && d.trail.written == c.trail.written
            && (ReadAborts(c, io) ==> d.trail.served == c.trail.served && d.incoming == c.incoming + got)
            && (!ReadAborts(c, io) ==>
                  d.trail.served == c.trail.served + decoded.frames && d.incoming == decoded.rest)
            && (d.status.wantClose <==> ReadAborts(c, io) || decoded.oversize)
  {
    ReachableOk(w);
    var c := w.conns[fd];
    assert Open(c);
    if !c.status.wantRead {
      assert c.incoming + [] == c.incoming && c.trail.received + [] == c.trail.received;
      assert c.trail.served + [] == c.trail.served;
    } else if io.end.WouldBlock? {
      EventServes(w, fd, io.chunks, io.faults);
      ReadingMoves(w, fd, io);
    }
  }

  lemma {:induction false} ReadingUnfolded(w: World, fd: nat, io: Io)
    requires fd < |w.conns| && w.conns[fd].status.wantRead && io.end.WouldBlock?
    ensures var r := Drain(Put(w, fd, Arrived(w.conns[fd], AllBytes(io.chunks))), fd, io.faults).conns[fd];
            AfterReading(w, fd, io).conns[fd] == if r.outgoing != [] then SetState(r, Writing) else r
  {
  }

  lemma {:induction false} ReadingMoves(w: World, fd: nat, io: Io)
    requires InService(w, fd) && w.conns[fd].status.wantRead && io.end.WouldBlock?
    ensures var c, d := w.conns[fd], AfterReading(w, fd, io).conns[fd];
            d.trail.received == c.trail.received + AllBytes(io.chunks) && d.trail.written == c.trail.written
  {
    ReadingUnfolded(w, fd, io);
    ArrivedInService(w, fd, io.chunks);
    DrainMovesNothing(Put(w, fd, Arrived(w.conns[fd], AllBytes(io.chunks))), fd, io.faults);
  }

  /** What it adds to the outgoing buffer is what was enqueued. */
  lemma {:induction false} ReadingEnqueues(w: World, fd: nat, io: Io)
    requires Reachable(w) && Enabled(w, Polled(fd, io))
    ensures var c, d := w.conns[fd], AfterReading(w, fd, io).conns[fd];
            && c.trail.enqueued <= d.trail.enqueued
            && d.outgoing == c.outgoing + Concat(d.trail.enqueued[|c.trail.enqueued|..])
  {
    var c, r := w.conns[fd], AfterReading(w, fd, io);
    var d := r.conns[fd];
    AfterReadingOk(w, fd, io);
    ReadingExact(w, fd, io);
    OutputAdded(c, d);
  }

  lemma {:induction false} OutputAdded(c: Conn, d: Conn)
    requires OutputKept(c) && OutputKept(d)
    requires c.trail.enqueued <= d.trail.enqueued && d.trail.written == c.trail.written
    ensures d.outgoing == c.outgoing + Concat(d.trail.enqueued[|c.trail.enqueued|..])
  {
    var more := d.trail.enqueued[|c.trail.enqueued|..];
    assert d.trail.enqueued == c.trail.enqueued + more;
    ConcatAppend(c.trail.enqueued, more);
    var x, y, z := c.trail.written, c.outgoing, Concat(more);
    assert x + d.outgoing == x + (y + z);
    assert (x + d.outgoing)[|x|..] == d.outgoing && (x + (y + z))[|x|..] == y + z;
  }

  lemma {:induction false} AfterReadingOk(w: World, fd: nat, io: Io)
    requires Reachable(w) && Enabled(w, Polled(fd, io))
    ensures var c, d := w.conns[fd], AfterReading(w, fd, io).conns[fd];
            && OutputKept(c) && OutputKept(d) && c.trail.enqueued <= d.trail.enqueued
            && d.status.active && (d.status.wantWrite <==> d.outgoing != [] && !ReadAborts(c, io))
            && (d.status.wantRead != d.status.wantWrite)
  {
    ReachableOk(w);
    ReadingKeeps(w, fd, io);
    var r := AfterReading(w, fd, io);
    assert ConnOk(w.db, w.accepted, w.conns[fd]) && ConnOk(r.db, r.accepted, r.conns[fd]);
    assert ConnGrew(w.conns[fd], r.conns[fd], |w.accepted|);
  }

  lemma {:induction false} ReadingKeeps(w: World, fd: nat, io: Io)
    requires Inv(w) && Enabled(w, Polled(fd, io))
    ensures var r := AfterReading(w, fd, io);
            && AllOk(r) && ReadDone(r.conns[fd]) && Grew(w, r)
            && (r.conns[fd].status.wantWrite <==> r.conns[fd].outgoing != [] && !ReadAborts(w.conns[fd], io))
            && (r.conns[fd].status.wantRead != r.conns[fd].status.wantWrite)
  {
    assert Open(w.conns[fd]);
    if w.conns[fd].status.wantRead {
      HandleReadKeeps(w, fd, io.chunks, io.end, io.faults);
      HandleReadGrew(w, fd, io.chunks, io.end, io.faults);
      ReadingMode(w, fd, io);
    } else {
      GrewRefl(w);
    }
  }

  lemma {:induction false} ReadingMode(w: World, fd: nat, io: Io)
    requires InService(w, fd)
    ensures var c := AfterReading(w, fd, io).conns[fd];
            && (c.status.wantWrite <==> c.outgoing != [] && io.end.WouldBlock?)
            && (c.status.wantRead != c.status.wantWrite)
  {
    if io.end.WouldBlock? {
      ReadingUnfolded(w, fd, io);
      ArrivedInService(w, fd, io.chunks);
      DrainKeeps(Put(w, fd, Arrived(w.conns[fd], AllBytes(io.chunks))), fd, io.faults);
    }
  }

  // ---------- Writing and closing ----------

  /** The write handler runs just when the slot waits to write, and the removal just when something asks for it. */
  lemma {:induction false} WritingExact(r: World, fd: nat, io: Io)
    requires fd < |r.conns| && (r.conns[fd].status.wantWrite ==> r.conns[fd].outgoing != [])
    ensures var c, d := r.conns[fd], WriteThenClose(r, fd, io).conns[fd];
            var n := if c.status.wantWrite then Min(Sum(io.counts), |c.outgoing|) else 0;
            && d.trail.written == c.trail.written + c.outgoing[..n] && d.outgoing == c.outgoing[n..]
            && d.trail.received == c.trail.received && d.incoming == c.incoming && Unanswered(c, d)
            && d.trail.enqueued == c.trail.enqueued
            && if io.error || c.status.wantClose || (c.status.wantWrite && io.writeFails && n < |c.outgoing|) then
                 d.status == IDLE && d.interest == Unwatched
               else
                 && SameIdentity(c, d)
                 && d.status == if c.status.wantWrite && n == |c.outgoing|
                                then c.status.(wantRead := true, wantWrite := false) else c.status
  {
    var c := r.conns[fd];
    if c.status.wantWrite {
      FlushExact(c, io.counts, io.writeFails);
      FlushKeepsRest(c, io.counts, io.writeFails);
    } else {
      assert c.outgoing[..0] == [] && c.outgoing[0..] == c.outgoing && c.trail.written + [] == c.trail.written;
    }
  }

  lemma {:induction false} FlushKeepsRest(c: Conn, counts: seq<nat>, fails: bool)
    ensures var d := Flush(c, counts, fails);
            && d.trail.received == c.trail.received && d.incoming == c.incoming && Unanswered(c, d)
            && d.trail.enqueued == c.trail.enqueued && SameIdentity(c, d)
    decreases |counts|
  {
    if counts != [] {
      var d := Flushed(c, Min(counts[0], |c.outgoing|));
      if d.outgoing != [] {
        FlushKeepsRest(d, counts[1..], fails);
      }
    }
  }

  // ---------- Whole events ----------

  /** What waits to be written once the requests of an event are served: what was held, then what was enqueued since. */
  function Waiting(c: Conn, d: Conn): seq<byte>
    requires c.trail.enqueued <= d.trail.enqueued
  {
    c.outgoing + Concat(d.trail.enqueued[|c.trail.enqueued|..])
  }

  /** An event takes what arrived on a slot that waits to read, and serves every request complete in it. */
  lemma {:induction false} EventReads(w: World, fd: nat, io: Io)
    requires Reachable(w) && Enabled(w, Polled(fd, io))
    ensures var c, d := w.conns[fd], Step(w, Polled(fd, io)).conns[fd];
            var got := if c.status.wantRead then AllBytes(io.chunks) else [];
            var decoded := Decode(c.incoming + got);
            && d.trail.received == c.trail.received + got
            && (ReadAborts(c, io) ==> d.trail.served == c.trail.served && d.incoming == c.incoming + got)
            && (!ReadAborts(c, io) ==>
                  d.trail.served == c.trail.served + decoded.frames && d.incoming == decoded.rest)
  {
    ReadingExact(w, fd, io);
    AfterReadingOk(w, fd, io);
    WritingExact(AfterReading(w, fd, io), fd, io);
  }

  /**
   * In the same event, the socket is offered all that waits, the answers to the
   * requests just served included, and what it takes is written, oldest first. Only
   * an aborted reading writes nothing.
   */
  lemma {:induction false} EventWrites(w: World, fd: nat, io: Io)
    requires Reachable(w) && Enabled(w, Polled(fd, io))
    ensures var c, d := w.conns[fd], Step(w, Polled(fd, io)).conns[fd];
            && c.trail.enqueued <= d.trail.enqueued
            && var waiting := Waiting(c, d);
               var n := if ReadAborts(c, io) then 0 else Min(Sum(io.counts), |waiting|);
               && d.trail.written == c.trail.written + waiting[..n] && d.outgoing == waiting[n..]
               && (d.status.active ==>
                     (d.outgoing == [] <==> d.status.wantRead) && (d.outgoing != [] <==> d.status.wantWrite))
  {
    ReadingExact(w, fd, io);
    ReadingEnqueues(w, fd, io);
    AfterReadingOk(w, fd, io);
    WritingExact(AfterReading(w, fd, io), fd, io);
  }

  /**
   * An event removes its connection just when epoll reports an error, the peer closed
   * or reading failed, a request is too big, or writing failed with output left;
   * otherwise the connection stays open under the same identity it had after its
   * requests were served.
   */
  lemma {:induction false} EventCloses(w: World, fd: nat, io: Io)
    requires Reachable(w) && Enabled(w, Polled(fd, io))
    ensures var c, d := w.conns[fd], Step(w, Polled(fd, io)).conns[fd];
            var got := if c.status.wantRead then AllBytes(io.chunks) else [];
            && c.trail.enqueued <= d.trail.enqueued
            && if || io.error || ReadAborts(c, io) || Decode(c.incoming + got).oversize
                  || (io.writeFails && Sum(io.counts) < |Waiting(c, d)|)
               then d.status == IDLE && d.interest == Unwatched
               else d.status.active && !d.status.wantClose && SameIdentity(AfterReading(w, fd, io).conns[fd], d)
  {
    ReadingExact(w, fd, io);
    ReadingEnqueues(w, fd, io);
    AfterReadingOk(w, fd, io);
    WritingExact(AfterReading(w, fd, io), fd, io);
  }
}
