/** The client's blocking transfers over a socket that moves any number of bytes per call. */
module Transfer {
  import opened Bytes
  import opened Frames

  datatype ReadResult = Data(bytes: seq<byte>) | Eof | Interrupted | Failed

  datatype WriteResult = Accepted(count: nat) | Signalled | Broken

  /**
   * A stream socket. `unread` is what the peer sends before it closes, `sent` what
   * was written; only finitely many signals interrupt calls, and a socket that is
   * not `faulty` never fails.
   */
  class Socket {
    var unread: seq<byte>
    var sent: seq<byte>
    var signals: nat
    var faulty: bool

    constructor (unread: seq<byte>, signals: nat, faulty: bool)
      ensures this.unread == unread && sent == [] && this.signals == signals && this.faulty == faulty
    {
      this.unread, this.sent, this.signals, this.faulty := unread, [], signals, faulty;
    }

    /** read(2): any non-empty part of what has arrived, up to `count` bytes. */
    method Read(count: nat) returns (r: ReadResult)
      requires count > 0
      modifies this
      ensures faulty == old(faulty) && sent == old(sent) && signals <= old(signals)
      ensures r.Data? ==> 0 < |r.bytes| <= count && old(unread) == r.bytes + unread && signals == old(signals)
      ensures !r.Data? ==> unread == old(unread)
      ensures r.Eof? ==> unread == []
      ensures r.Interrupted? ==> signals < old(signals)
      ensures r.Failed? ==> faulty
    {
      var signal: bool, fault: bool := *, *;
      if signals > 0 && signal {
        signals := signals - 1;
        return Interrupted;
      } else if faulty && fault {
        return Failed;
      } else if unread == [] {
        return Eof;
      }
      var n :| 0 < n <= count && n <= |unread|;
      r := Data(unread[..n]);
      unread := unread[n..];
    }

    /** write(2): any part of the bytes. */
    method Write(bytes: seq<byte>) returns (r: WriteResult)
      requires bytes != []
      modifies this
      ensures faulty == old(faulty) && unread == old(unread) && signals <= old(signals)
      ensures r.Accepted? ==> r.count <= |bytes| && sent == old(sent) + bytes[..r.count] && signals == old(signals)
      ensures r.Accepted? && r.count == 0 ==> faulty
      ensures !r.Accepted? ==> sent == old(sent)
      ensures r.Signalled? ==> signals < old(signals)
      ensures r.Broken? ==> faulty
    {
      var signal: bool, fault: bool := *, *;
      if signals > 0 && signal {
        signals := signals - 1;
        return Signalled;
      } else if faulty && fault {
        return Broken;
      }
      var n :| 0 <= n <= |bytes| && (n == 0 ==> faulty);
      r := Accepted(n);
      sent := sent + bytes[..n];
    }
  }

  /** The loops of read_one_message; the one for the payload does not retry an interrupted call. */
  method ReadExactly(s: Socket, count: nat, retry: bool) returns (ok: bool, bytes: seq<byte>)
    modifies s
    ensures s.faulty == old(s.faulty) && s.signals <= old(s.signals) && s.sent == old(s.sent)
    ensures old(s.unread) == bytes + s.unread
    ensures ok <==> |bytes| == count
    ensures |bytes| <= count
    ensures !ok ==> s.unread == [] || s.faulty || (!retry && s.signals < old(s.signals))
  {
    bytes := [];
    while |bytes| < count
      invariant s.faulty == old(s.faulty) && s.signals <= old(s.signals) && s.sent == old(s.sent)
      invariant old(s.unread) == bytes + s.unread
      invariant |bytes| <= count
      decreases count - |bytes|, s.signals
    {
      var r := s.Read(count - |bytes|);
      if r.Eof? {
        return false, bytes;
      }
      if r.Interrupted? && retry {
        continue;
      }
      if !r.Data? {
        return false, bytes;
      }
      bytes := bytes + r.bytes;
    }
    ok := true;
  }

  /** read_one_message. `cut` tells that a signal interrupted the reading of a payload, which gives the message up. */
  method ReadOneMessage(s: Socket) returns (rc: int, m: Message, ghost cut: bool)
    modifies s
    ensures rc == 0 || rc == -1
    ensures rc == 0 ==> Take(old(s.unread)) == Some(Received(m, s.unread))
    ensures !s.faulty && !cut ==> (rc == 0 <==> Take(old(s.unread)).Some?)
    ensures cut ==> rc == -1 && s.signals < old(s.signals)
    ensures cut ==> |old(s.unread)| > HEADER_SIZE && 0 < LengthField(old(s.unread)) <= MAX_PAYLOAD
    ensures s.faulty == old(s.faulty) && s.signals <= old(s.signals) && s.sent == old(s.sent)
  {
    m := Message(0, 0, 0, []);
    ghost var stream := s.unread;
    var ok, header := ReadExactly(s, HEADER_SIZE, true);
    if !ok {
      return -1, m, false;
    }
    assert stream[3..7] == header[3..7];
    var size := FromBigEndian(header[3..7]);
    if size > MAX_PAYLOAD {
      return -1, m, false;
    }
    var body;
    ok, body := ReadExactly(s, size, false);
    assert stream == header + (body + s.unread);
    if !ok {
      return -1, m, !s.faulty && s.unread != [];
    }
    assert stream[7..7 + size] == body && stream[7 + size..] == s.unread;
    return 0, Message(header[0], header[1], header[2], body), false;
  }

  /**
   * Repeated read_one_message: the messages of the stream, in order, and all of
   * them unless the socket fails or a signal cuts a payload short.
   */
  method ReadMessages(s: Socket) returns (ms: seq<Message>, ghost cut: bool)
    modifies s
    ensures ms <= TakeAll(old(s.unread))
    ensures !s.faulty && !cut ==> ms == TakeAll(old(s.unread))
    ensures s.faulty == old(s.faulty) && (cut ==> s.signals < old(s.signals))
  {
    ms := [];
    while true
      invariant s.faulty == old(s.faulty) && s.signals <= old(s.signals)
      invariant TakeAll(old(s.unread)) == ms + TakeAll(s.unread)
      decreases |s.unread|
    {
      var rc, m;
      rc, m, cut := ReadOneMessage(s);
      if rc != 0 {
        return ms, cut;
      }
      assert ms + ([m] + TakeAll(s.unread)) == ms + [m] + TakeAll(s.unread);
      ms := ms + [m];
    }
  }

  /** write_one_message. */
  method WriteOneMessage(s: Socket, message: seq<byte>) returns (rc: int)
    modifies s
    ensures rc == |message| || rc == -1
    ensures rc == -1 ==> s.faulty && exists n | 0 <= n < |message| :: s.sent == old(s.sent) + message[..n]
    ensures rc == |message| ==> s.sent == old(s.sent) + message
    ensures s.unread == old(s.unread) && s.faulty == old(s.faulty)
  {
    var done := 0;
    assert message[..0] == [];
    while done < |message|
      invariant 0 <= done <= |message|
      invariant s.sent == old(s.sent) + message[..done]
      invariant s.unread == old(s.unread) && s.faulty == old(s.faulty)
      decreases |message| - done, s.signals
    {
      var r := s.Write(message[done..]);
      if !r.Accepted? || r.count == 0 {
        if r.Signalled? {
          continue;
        }
        return -1;
      }
      assert message[..done] + message[done..][..r.count] == message[..done + r.count];
      done := done + r.count;
    }
    assert message[..done] == message;
    rc := |message|;
  }
}
