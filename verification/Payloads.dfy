/** The payloads of the protocol's messages: what each parser accepts and what each builder writes. */
module Payloads {
  import opened Bytes
  import opened Frames
  import opened Tlv

  // Message types
  const REGISTER: byte := 0
  const LOGIN: byte := 1
  const CHAT: byte := 2

  // Response codes
  const OK: byte := 0
  const MALFORMED: byte := 1
  const USER_EXISTS: byte := 2
  const USER_NOT_FOUND: byte := 3
  const INVALID_CREDENTIALS: byte := 4
  const INTERNAL: byte := 5
  const UNKNOWN_COMMAND: byte := 6

  // Tags
  const USERNAME: byte := 0
  const PASSWORD: byte := 1
  const WORLD: byte := 4
  const P2P: byte := 5
  const USER_ID: byte := 6
  const SENDER: byte := 9
  const RECIPIENT: byte := 10
  const CONTENT: byte := 11

  const MAX_NAME := 32
  const MAX_PASSWORD := 32
  const MAX_CONTENT := 255
  const VERSION: byte := 1

  datatype Credentials = Credentials(username: Text, password: Text)
  datatype WorldBroadcast = WorldBroadcast(sender: Text, content: Text)
  datatype P2pBroadcast = P2pBroadcast(sender: Text, recipient: Text, content: Text)
  datatype Account = Account(id: u32, name: Text)

  const CREDENTIALS := Schema({USERNAME, PASSWORD}, map[USERNAME := MAX_NAME, PASSWORD := MAX_PASSWORD])
  const WORLD_BROADCAST := Schema({WORLD, SENDER, CONTENT}, map[SENDER := MAX_NAME])
  const P2P_BROADCAST := Schema({P2P, SENDER, RECIPIENT, CONTENT}, map[SENDER := MAX_NAME, RECIPIENT := MAX_NAME])

  /** The limit on the id is not checked: the client relies on its peer to keep it. */
  const ACCOUNT := Schema({USER_ID, USERNAME}, map[USERNAME := MAX_NAME, USER_ID := 4])

  // ---------- What the parsers accept ----------

  function Fields(s: Schema, p: seq<byte>): Option<seq<Tlv>> {
    if Split(p).Some? && Accepts(s, Split(p).value) then Split(p) else None
  }

  /** A payload is accepted just when it is an exact sequence of fields that the schema admits. */
  lemma {:induction false} FieldsExact(s: Schema, p: seq<byte>)
    ensures Fields(s, p).Some? <==> exists ts :: Fits(ts) && p == EncodeAll(ts) && Accepts(s, ts)
    ensures forall ts :: Fits(ts) && p == EncodeAll(ts) && Accepts(s, ts) ==> Fields(s, p) == Some(ts)
  {
    forall ts {
      SplitExact(p, ts);
    }
  }

  function ParseCredentials(p: seq<byte>): Option<Credentials> {
    match Fields(CREDENTIALS, p)
    case None => None
    case Some(ts) => Some(Credentials(Last(ts, USERNAME), Last(ts, PASSWORD)))
  }

  function ParseWorld(p: seq<byte>): Option<WorldBroadcast> {
    match Fields(WORLD_BROADCAST, p)
    case None => None
    case Some(ts) => Some(WorldBroadcast(Last(ts, SENDER), Last(ts, CONTENT)))
  }

  function ParseP2p(p: seq<byte>): Option<P2pBroadcast> {
    match Fields(P2P_BROADCAST, p)
    case None => None
    case Some(ts) => Some(P2pBroadcast(Last(ts, SENDER), Last(ts, RECIPIENT), Last(ts, CONTENT)))
  }

  /**
   * `memcpy` onto the front of a number in host memory, then `ntohl`: a short value
   * leaves the bytes behind it as they were.
   */
  function OverwrittenId(id: u32, value: Text): u32
    requires |value| <= 4
  {
    FromBigEndian(value + HostBytes(id)[|value|..])
  }

  /** The id after copying every value of the id's tag, in turn. */
  function CopiedId(id: u32, values: seq<Text>): u32
    requires forall k | 0 <= k < |values| :: |values[k]| <= 4
  {
    if values == [] then id
    else OverwrittenId(CopiedId(id, values[..|values| - 1]), values[|values| - 1])
  }

  /** No id that the client gets to copy is longer than the variable it copies to. */
  predicate IdsFit(p: seq<byte>, at: nat)
    decreases |p| - at
  {
    at + 2 <= |p| && at + 2 + p[at + 1] as int <= |p| && !(p[at] == USERNAME && p[at + 1] > MAX_NAME) ==>
      (p[at] == USER_ID ==> p[at + 1] <= 4) && IdsFit(p, at + 2 + p[at + 1] as int)
  }

  /** What a client that holds `id` reads from a response; a later or longer id overwrites more of it. */
  function ParseAccount(p: seq<byte>, id: u32): Option<Account> {
    match Fields(ACCOUNT, p)
    case None => None
    case Some(ts) => Some(Account(CopiedId(id, Values(ts, USER_ID)), Last(ts, USERNAME)))
  }

  /** The parsed fields respect the limits of the protocol. */
  lemma {:induction false} ParsedInLimit(p: seq<byte>)
    ensures ParseCredentials(p).Some? ==> CredentialsFit(ParseCredentials(p).value)
    ensures ParseWorld(p).Some? ==> |ParseWorld(p).value.content| <= MAX_CONTENT
    ensures ParseP2p(p).Some? ==>
              |ParseP2p(p).value.recipient| <= MAX_NAME && |ParseP2p(p).value.content| <= MAX_CONTENT
  {
    SplitSound(p);
    if Split(p).Some? && Has(Split(p).value, CONTENT) {
      var ts := Split(p).value;
      BoundedMeans(Schema({}, map[CONTENT := MAX_CONTENT]), ts);
      assert Bounded(Schema({}, map[CONTENT := MAX_CONTENT]), ts);
    }
  }

  /** An empty payload is refused by every parser: each requires some tag. */
  lemma {:induction false} EmptyPayloadRefused()
    ensures ParseCredentials([]) == None && ParseWorld([]) == None && ParseP2p([]) == None
    ensures Fields(ACCOUNT, []) == None
  {
    assert Values([], USERNAME) == [] && Values([], WORLD) == [] && Values([], P2P) == [];
  }

  // ---------- What the builders write ----------

  function CredentialFields(c: Credentials): seq<Tlv> {
    [Tlv(USERNAME, c.username), Tlv(PASSWORD, c.password)]
  }

  function WorldFields(b: WorldBroadcast): seq<Tlv> {
    [Tlv(WORLD, []), Tlv(SENDER, b.sender), Tlv(CONTENT, b.content)]
  }

  function P2pFields(b: P2pBroadcast): seq<Tlv> {
    [Tlv(P2P, []), Tlv(SENDER, b.sender), Tlv(RECIPIENT, b.recipient), Tlv(CONTENT, b.content)]
  }

  function AccountFields(a: Account): seq<Tlv> {
    [Tlv(USER_ID, BigEndian(a.id)), Tlv(USERNAME, a.name)]
  }

  function CredentialMessage(kind: byte, c: Credentials): Message {
    EncodeAllSize(CredentialFields(c));
    Message(VERSION, kind, OK, EncodeAll(CredentialFields(c)))
  }

  function WorldMessage(b: WorldBroadcast): Message {
    EncodeAllSize(WorldFields(b));
    Message(VERSION, CHAT, OK, EncodeAll(WorldFields(b)))
  }

  function P2pMessage(b: P2pBroadcast): Message {
    EncodeAllSize(P2pFields(b));
    Message(VERSION, CHAT, OK, EncodeAll(P2pFields(b)))
  }

  function AccountMessage(kind: byte, a: Account): Message {
    EncodeAllSize(AccountFields(a));
    Message(VERSION, kind, OK, EncodeAll(AccountFields(a)))
  }

  /** A response without payload. */
  function StatusOnly(kind: byte, rc: byte): Message {
    Message(VERSION, kind, rc, [])
  }

  predicate NameFits(name: Text) {
    |name| <= MAX_NAME
  }

  predicate CredentialsFit(c: Credentials) {
    |c.username| <= MAX_NAME && |c.password| <= MAX_PASSWORD
  }

  predicate WorldFits(b: WorldBroadcast) {
    |b.sender| <= MAX_NAME && |b.content| <= MAX_CONTENT
  }

  predicate P2pFits(b: P2pBroadcast) {
    |b.sender| <= MAX_NAME && |b.recipient| <= MAX_NAME && |b.content| <= MAX_CONTENT
  }

  // ---------- Round trips ----------

  /** Fields with distinct tags that a schema names are accepted, and each is read back. */
  lemma {:induction false} FieldsOfEncoded(s: Schema, ts: seq<Tlv>)
    requires Fits(ts) && DistinctTags(ts)
    requires forall tag | tag in s.required :: exists t :: t in ts && t.tag == tag
    requires forall t | t in ts && t.tag in s.limits :: |t.value| <= s.limits[t.tag]
    ensures Fields(s, EncodeAll(ts)) == Some(ts)
    ensures forall t | t in ts :: Has(ts, t.tag) && Last(ts, t.tag) == t.value
  {
    SplitExact(EncodeAll(ts), ts);
    BoundedMeans(s, ts);
    forall t | t in ts ensures Values(ts, t.tag) == [t.value] {
      OnlyValue(ts, t);
    }
  }

  lemma {:induction false} CredentialsRoundTrip(kind: byte, c: Credentials)
    requires CredentialsFit(c)
    ensures var m := CredentialMessage(kind, c);
            m == Message(1, kind, 0, m.payload) && ParseCredentials(m.payload) == Some(c)
  {
    var ts := CredentialFields(c);
    assert ts[0] in ts && ts[1] in ts;
    FieldsOfEncoded(CREDENTIALS, ts);
  }

  lemma {:induction false} WorldRoundTrip(b: WorldBroadcast)
    requires WorldFits(b)
    ensures var m := WorldMessage(b);
            m == Message(1, 2, 0, m.payload) && ParseWorld(m.payload) == Some(b)
  {
    var ts := WorldFields(b);
    assert ts[0] in ts && ts[1] in ts && ts[2] in ts;
    FieldsOfEncoded(WORLD_BROADCAST, ts);
  }

  lemma {:induction false} P2pRoundTrip(b: P2pBroadcast)
    requires P2pFits(b)
    ensures var m := P2pMessage(b);
            m == Message(1, 2, 0, m.payload) && ParseP2p(m.payload) == Some(b)
  {
    var ts := P2pFields(b);
    assert ts[0] in ts && ts[1] in ts && ts[2] in ts && ts[3] in ts;
    FieldsOfEncoded(P2P_BROADCAST, ts);
  }

  /** Whatever id the client held before. */
  lemma {:induction false} AccountRoundTrip(kind: byte, a: Account, previous: u32)
    requires NameFits(a.name)
    ensures var m := AccountMessage(kind, a);
            m == Message(1, kind, 0, m.payload) && ParseAccount(m.payload, previous) == Some(a)
    ensures IdsFit(AccountMessage(kind, a).payload, 0)
  {
    var ts := AccountFields(a);
    assert ts[0] in ts && ts[1] in ts;
    FieldsOfEncoded(ACCOUNT, ts);
    OnlyValue(ts, ts[0]);
    assert BigEndian(a.id) + HostBytes(previous)[4..] == BigEndian(a.id);
    AccountIdsFit(a);
  }

  lemma {:induction false} AccountIdsFit(a: Account)
    requires NameFits(a.name)
    ensures IdsFit(EncodeAll(AccountFields(a)), 0)
  {
    var ts := AccountFields(a);
    var p := EncodeAll(ts);
    assert p == Encode(ts[0]) + EncodeAll(ts[1..]);
    assert EncodeAll(ts[1..]) == Encode(ts[1]) + EncodeAll(ts[1..][1..]);
    assert p[6..] == Encode(ts[1]) && p[6..][2 + |a.name|..] == [];
  }

  /** The exact sizes of what the server sends, and the byte by which broadcasts are told apart. */
  lemma {:induction false} WorldSize(b: WorldBroadcast)
    ensures |WorldMessage(b).payload| == 6 + |Narrow(b.sender)| + |Narrow(b.content)|
    ensures WorldMessage(b).payload[0] == WORLD
  {
    var ts := WorldFields(b);
    EncodeSnoc(ts[..2], ts[2]);
    assert ts[..2] + [ts[2]] == ts;
    EncodeSnoc(ts[..1], ts[1]);
    assert ts[..1] + [ts[1]] == ts[..2];
  }

  lemma {:induction false} P2pSize(b: P2pBroadcast)
    ensures |P2pMessage(b).payload| == 8 + |Narrow(b.sender)| + |Narrow(b.recipient)| + |Narrow(b.content)|
    ensures P2pMessage(b).payload[0] == P2P
  {
    var ts := P2pFields(b);
    EncodeSnoc(ts[..3], ts[3]);
    assert ts[..3] + [ts[3]] == ts;
    EncodeSnoc(ts[..2], ts[2]);
    assert ts[..2] + [ts[2]] == ts[..3];
    EncodeSnoc(ts[..1], ts[1]);
    assert ts[..1] + [ts[1]] == ts[..2];
  }

  lemma {:induction false} AccountSize(kind: byte, a: Account)
    ensures |AccountMessage(kind, a).payload| == 8 + |Narrow(a.name)|
  {
    var ts := AccountFields(a);
    EncodeSnoc(ts[..1], ts[1]);
    assert ts[..1] + [ts[1]] == ts;
  }
}
