/** The builders as the source runs them: a pointer moves through a buffer that is filled in place. */
module Builders {
  import opened Bytes
  import opened Frames
  import opened Tlv
  import opened Payloads

  /** memcpy. */
  method CopyBytes(buf: array<byte>, at: nat, source: seq<byte>)
    requires at + |source| <= buf.Length
    modifies buf
    ensures buf[..] == old(buf[..at]) + source + old(buf[at + |source|..])
  {
    for k := 0 to |source|
      invariant forall j | 0 <= j < k :: buf[at + j] == source[j]
      invariant forall j | 0 <= j < buf.Length && !(at <= j < at + k) :: buf[j] == old(buf[j])
    {
      buf[at + k] := source[k];
    }
  }

  /** A `size_t` cast to `uint8_t`. */
  function Low8(n: nat): byte {
    n % 256
  }

  lemma {:induction false} NarrowIsPrefix(value: Text)
    ensures Narrow(value) == value[..Low8(|value|)]
    decreases |value|
  {
    if |value| >= 256 {
      NarrowIsPrefix(value[..|value| - 256]);
    }
  }

  /** write_tlv; a number of two or four bytes is turned from host into network order. */
  method WriteTlv(buf: array<byte>, at: nat, tag: byte, len: byte, value: seq<byte>, toNetwork: bool)
    returns (next: nat)
    requires at + 2 + len as int <= buf.Length && len as int <= |value|
    modifies buf
    ensures next == at + 2 + len
    ensures buf[..at] == old(buf[..at]) && buf[next..] == old(buf[next..])
    ensures buf[at..next] ==
            [tag, len] + if toNetwork && (len == 2 || len == 4) then Reversed(value[..len]) else value[..len]
  {
    buf[at], buf[at + 1] := tag, len;
    ghost var start := buf[..];
    if toNetwork && (len == 2 || len == 4) {
      CopyBytes(buf, at + 2, Reversed(value[..len]));
    } else {
      CopyBytes(buf, at + 2, value[..len]);
    }
    next := at + 2 + len;
    assert buf[..at] == start[..at] && buf[next..] == start[next..];
  }

  /** A text field after the fields already written from `base` on. */
  method WriteText(buf: array<byte>, base: nat, at: nat, tag: byte, value: Text, ghost written: seq<Tlv>)
    returns (next: nat)
    requires base <= at && at + 257 <= buf.Length
    requires buf[base..at] == EncodeAll(written)
    modifies buf
    ensures next == at + 2 + |Narrow(value)|
    ensures buf[..base] == old(buf[..base])
    ensures buf[base..next] == EncodeAll(written + [Tlv(tag, value)])
  {
    ghost var before := buf[..at];
    next := WriteTlv(buf, at, tag, Low8(|value|), value, false);
    NarrowIsPrefix(value);
    EncodeSnoc(written, Tlv(tag, value));
    assert buf[base..next] == before[base..] + buf[at..next];
    assert buf[..base] == before[..base];
  }

  // ---------- Builders of the server ----------

  /** build_register_response and build_login_response. */
  method BuildAccountResponse(buf: array<byte>, kind: byte, a: Account) returns (rc: int, m: Message)
    requires buf.Length >= MAX_PAYLOAD
    modifies buf
    ensures rc == 0 && m == AccountMessage(kind, a)
  {
    var at := WriteTlv(buf, 0, USER_ID, 4, HostBytes(a.id), true);
    NetworkOrder(a.id);
    ghost var id := Tlv(USER_ID, BigEndian(a.id));
    assert HostBytes(a.id)[..4] == HostBytes(a.id);
    EncodeSnoc([], id);
    assert [] + [id] == [id] && EncodeAll([]) + Encode(id) == Encode(id);
    at := WriteText(buf, 0, at, USERNAME, a.name, [id]);
    assert [id] + [Tlv(USERNAME, a.name)] == AccountFields(a);
    m := Message(VERSION, kind, OK, buf[..at]);
    rc := if at > MAX_PAYLOAD then -1 else 0;
  }

  /** build_world_broadcast on a message whose payload buffer is `buf`. */
  method BuildWorldMessage(buf: array<byte>, b: WorldBroadcast) returns (rc: int, m: Message)
    requires buf.Length >= MAX_PAYLOAD
    modifies buf
    ensures rc == 0 && m == WorldMessage(b)
  {
    var at := WriteWorldFields(buf, 0, b);
    m := Message(VERSION, CHAT, OK, buf[..at]);
    rc := if at > MAX_PAYLOAD then -1 else 0;
  }

  /** build_p2p_broadcast on a message whose payload buffer is `buf`. */
  method BuildP2pMessage(buf: array<byte>, b: P2pBroadcast) returns (rc: int, m: Message)
    requires buf.Length >= MAX_PAYLOAD
    modifies buf
    ensures rc == (if b.sender == b.recipient then -1 else 0)
    ensures rc == 0 ==> m == P2pMessage(b)
  {
    if b.sender == b.recipient {
      return -1, StatusOnly(CHAT, OK);
    }
    var at := WriteP2pFields(buf, 0, b);
    m := Message(VERSION, CHAT, OK, buf[..at]);
    rc := if at > MAX_PAYLOAD then -1 else 0;
  }

  method WriteWorldFields(buf: array<byte>, base: nat, b: WorldBroadcast) returns (at: nat)
    requires buf.Length >= base + MAX_PAYLOAD
    modifies buf
    ensures base <= at <= base + 516
    ensures buf[..base] == old(buf[..base]) && buf[base..at] == EncodeAll(WorldFields(b))
  {
    ghost var fs := WorldFields(b);
    at := WriteText(buf, base, base, WORLD, [], []);
    assert [] + [fs[0]] == fs[..1];
    at := WriteText(buf, base, at, SENDER, b.sender, fs[..1]);
    assert fs[..1] + [fs[1]] == fs[..2];
    at := WriteText(buf, base, at, CONTENT, b.content, fs[..2]);
    assert fs[..2] + [fs[2]] == fs;
  }

  method WriteP2pFields(buf: array<byte>, base: nat, b: P2pBroadcast) returns (at: nat)
    requires buf.Length >= base + MAX_PAYLOAD
    modifies buf
    ensures base <= at <= base + 773
    ensures buf[..base] == old(buf[..base]) && buf[base..at] == EncodeAll(P2pFields(b))
  {
    ghost var fs := P2pFields(b);
    at := WriteText(buf, base, base, P2P, [], []);
    assert [] + [fs[0]] == fs[..1];
    at := WriteText(buf, base, at, SENDER, b.sender, fs[..1]);
    assert fs[..1] + [fs[1]] == fs[..2];
    at := WriteText(buf, base, at, RECIPIENT, b.recipient, fs[..2]);
    assert fs[..2] + [fs[2]] == fs[..3];
    at := WriteText(buf, base, at, CONTENT, b.content, fs[..3]);
    assert fs[..3] + [fs[3]] == fs;
  }

  // ---------- Builders of the client ----------

  /** The header in front of a payload that is already in place. */
  method WriteHeader(buf: array<byte>, kind: byte, ghost payload: Payload, len: nat)
    requires buf.Length >= len == HEADER_SIZE + |payload|
    requires buf[HEADER_SIZE..len] == payload
    modifies buf
    ensures buf[..len] == Serialize(Message(VERSION, kind, OK, payload))
  {
    buf[0], buf[1], buf[2] := VERSION, kind, OK;
    ghost var before := buf[..];
    var size := len - HEADER_SIZE;
    CopyBytes(buf, 3, Reversed(HostBytes(size)));
    NetworkOrder(size);
    assert buf[..3] == before[..3] == [VERSION, kind, OK];
    assert buf[HEADER_SIZE..len] == before[HEADER_SIZE..len] == payload;
    assert buf[..len] == buf[..3] + buf[3..HEADER_SIZE] + buf[HEADER_SIZE..len];
  }

  /** build_register_request and build_login_request. */
  method BuildCredentialRequest(buf: array<byte>, kind: byte, c: Credentials) returns (rc: int, len: nat)
    requires buf.Length >= HEADER_SIZE + MAX_PAYLOAD
    modifies buf
    ensures rc == if |c.username| <= 32 && |c.password| <= 32 then 0 else -1
    ensures rc == 0 ==> len <= buf.Length && buf[..len] == Serialize(CredentialMessage(kind, c))
  {
    if |c.username| > MAX_NAME || |c.password| > MAX_PASSWORD {
      return -1, 0;
    }
    ghost var fs := CredentialFields(c);
    len := WriteText(buf, HEADER_SIZE, HEADER_SIZE, USERNAME, c.username, []);
    assert [] + [fs[0]] == fs[..1];
    len := WriteText(buf, HEADER_SIZE, len, PASSWORD, c.password, fs[..1]);
    assert fs[..1] + [fs[1]] == fs;
    WriteHeader(buf, kind, EncodeAll(fs), len);
    rc := if len - HEADER_SIZE > MAX_PAYLOAD then -1 else 0;
  }

  /** build_world_broadcast into a request buffer. */
  method BuildWorldRequest(buf: array<byte>, b: WorldBroadcast) returns (rc: int, len: nat)
    requires buf.Length >= HEADER_SIZE + MAX_PAYLOAD
    modifies buf
    ensures rc == if |b.sender| <= 32 && |b.content| <= 255 then 0 else -1
    ensures rc == 0 ==> len <= buf.Length && buf[..len] == Serialize(WorldMessage(b))
  {
    if |b.sender| > MAX_NAME || |b.content| > MAX_CONTENT {
      return -1, 0;
    }
    len := WriteWorldFields(buf, HEADER_SIZE, b);
    rc := if len - HEADER_SIZE > MAX_PAYLOAD then -1 else 0;
    WriteHeader(buf, CHAT, EncodeAll(WorldFields(b)), len);
  }

  /** build_p2p_broadcast into a request buffer. */
  method BuildP2pRequest(buf: array<byte>, b: P2pBroadcast) returns (rc: int, len: nat)
    requires buf.Length >= HEADER_SIZE + MAX_PAYLOAD
    modifies buf
    ensures rc == if && |b.sender| <= 32 && |b.recipient| <= 32 && |b.content| <= 255
                     && b.sender != b.recipient then 0 else -1
    ensures rc == 0 ==> len <= buf.Length && buf[..len] == Serialize(P2pMessage(b))
  {
    if |b.sender| > MAX_NAME || |b.recipient| > MAX_NAME || b.sender == b.recipient || |b.content| > MAX_CONTENT {
      return -1, 0;
    }
    len := WriteP2pFields(buf, HEADER_SIZE, b);
    rc := if len - HEADER_SIZE > MAX_PAYLOAD then -1 else 0;
    WriteHeader(buf, CHAT, EncodeAll(P2pFields(b)), len);
  }

  // ---------- Serialising ----------

  /** write_message_to_buffer: the header fields, then the payload if there is one, go to the end of the buffer. */
  method WriteMessage(buffer: seq<byte>, m: Message) returns (r: seq<byte>)
    ensures r == buffer + Serialize(m)
  {
    r := buffer + [m.version];
    r := r + [m.kind];
    r := r + [m.rc];
    NetworkOrder(|m.payload|);
    r := r + Reversed(HostBytes(|m.payload|));
    if |m.payload| > 0 {
      r := r + m.payload;
    }
  }

  /** The client's builder and the server's builder followed by the serialiser write the same bytes. */
  method WorldBuildersAgree(b: WorldBroadcast) returns (client: seq<byte>, server: seq<byte>)
    requires WorldFits(b)
    ensures client == server == Serialize(WorldMessage(b))
  {
    var request := new byte[HEADER_SIZE + MAX_PAYLOAD];
    var rc, len := BuildWorldRequest(request, b);
    client := request[..len];
    var payload := new byte[MAX_PAYLOAD];
    var rc', m := BuildWorldMessage(payload, b);
    server := WriteMessage([], m);
  }

  method P2pBuildersAgree(b: P2pBroadcast) returns (client: seq<byte>, server: seq<byte>)
    requires P2pFits(b) && b.sender != b.recipient
    ensures client == server == Serialize(P2pMessage(b))
  {
    var request := new byte[HEADER_SIZE + MAX_PAYLOAD];
    var rc, len := BuildP2pRequest(request, b);
    client := request[..len];
    var payload := new byte[MAX_PAYLOAD];
    var rc', m := BuildP2pMessage(payload, b);
    server := WriteMessage([], m);
  }
}
