/** The parsers as the source runs them: one pass over the payload, field by field. */
module Parsers {
  import opened Bytes
  import opened Tlv
  import opened Payloads

  /** The first `p` bytes are the fields `done`; the rest of the payload decides whether it splits at all. */
  ghost predicate Scanned(payload: seq<byte>, p: nat, done: seq<Tlv>) {
    p <= |payload| && Split(payload) == Joined(done, Split(payload[p..]))
  }

  lemma {:induction false} ScanStart(payload: seq<byte>)
    ensures Scanned(payload, 0, [])
  {
    assert payload[0..] == payload;
    assert Split(payload).Some? ==> [] + Split(payload).value == Split(payload).value;
  }

  lemma {:induction false} ScanStep(payload: seq<byte>, p: nat, done: seq<Tlv>, t: Tlv)
    requires Scanned(payload, p, done) && p + 2 <= |payload|
    requires p + 2 + payload[p + 1] as int <= |payload|
    requires t == Tlv(payload[p], payload[p + 2..p + 2 + payload[p + 1] as int])
    ensures Scanned(payload, p + 2 + |t.value|, done + [t])
  {
    var q := payload[p..];
    assert First(q) == t;
    assert q[2 + |t.value|..] == payload[p + 2 + |t.value|..];
    var rest := Split(payload[p + 2 + |t.value|..]);
    assert rest.Some? ==> done + ([t] + rest.value) == done + [t] + rest.value;
  }

  /** A header or value that runs past the end makes the whole payload malformed. */
  lemma {:induction false} ScanStuck(payload: seq<byte>, p: nat, done: seq<Tlv>)
    requires Scanned(payload, p, done) && p < |payload|
    requires p + 2 > |payload| || p + 2 + payload[p + 1] as int > |payload|
    ensures Split(payload) == None
  {
  }

  /** So does a field above its limit, wherever it stands. */
  lemma {:induction false} ScanTooLong(payload: seq<byte>, p: nat, done: seq<Tlv>, s: Schema)
    requires Scanned(payload, p, done) && !Bounded(s, done)
    ensures Malformed(s, payload)
  {
    if Split(payload).Some? && Bounded(s, Split(payload).value) {
      BoundedPrefix(s, done, Split(payload[p..]).value);
    }
  }

  lemma {:induction false} ScanEnd(payload: seq<byte>, done: seq<Tlv>)
    requires Scanned(payload, |payload|, done)
    ensures Split(payload) == Some(done)
  {
    assert done + [] == done;
  }

  /** No continuation of the loop accepts the payload. */
  ghost predicate Malformed(s: Schema, payload: seq<byte>) {
    Split(payload).None? || !Bounded(s, Split(payload).value)
  }

  predicate TooLong(s: Schema, t: Tlv) {
    t.tag in s.limits && |t.value| > s.limits[t.tag]
  }

  /** The invariant of each loop: fields found, none of them too long. */
  ghost predicate Within(s: Schema, payload: seq<byte>, p: nat, done: seq<Tlv>) {
    Scanned(payload, p, done) && Bounded(s, done)
  }

  lemma {:induction false} FieldFound(payload: seq<byte>, p: nat, done: seq<Tlv>, t: Tlv, s: Schema)
    requires Within(s, payload, p, done) && p + 2 <= |payload|
    requires p + 2 + payload[p + 1] as int <= |payload|
    requires t == Tlv(payload[p], payload[p + 2..p + 2 + payload[p + 1] as int])
    ensures !TooLong(s, t) ==> Within(s, payload, p + 2 + |t.value|, done + [t])
    ensures TooLong(s, t) ==> Malformed(s, payload)
  {
    ScanStep(payload, p, done, t);
    BoundedSnoc(s, done, t);
    if TooLong(s, t) {
      ScanTooLong(payload, p + 2 + |t.value|, done + [t], s);
    }
  }

  /** The start of each parser's loop body: two bytes of tag and length, then the value, all within the payload. */
  method ReadField(payload: seq<byte>, p: nat, ghost done: seq<Tlv>, ghost s: Schema) returns (ok: bool, t: Tlv)
    requires Within(s, payload, p, done) && p < |payload|
    ensures !ok ==> Split(payload) == None
    ensures ok ==> p + 2 + |t.value| <= |payload| && t.tag == payload[p] && |t.value| == payload[p + 1]
    ensures ok && !TooLong(s, t) ==> Within(s, payload, p + 2 + |t.value|, done + [t])
    ensures ok && TooLong(s, t) ==> Malformed(s, payload)
  {
    if p + 2 > |payload| {
      ScanStuck(payload, p, done);
      return false, Tlv(0, []);
    }
    var size := payload[p + 1] as int;
    if p + 2 + size > |payload| {
      ScanStuck(payload, p, done);
      return false, Tlv(0, []);
    }
    ok, t := true, Tlv(payload[p], payload[p + 2..p + 2 + size]);
    FieldFound(payload, p, done, t, s);
  }

  /** The value a loop holds for a tag: the last one it has met. */
  ghost function Seen(ts: seq<Tlv>, tag: byte): Option<Text> {
    if Has(ts, tag) then Some(Last(ts, tag)) else None
  }

  lemma {:induction false} SeenSnoc(ts: seq<Tlv>, t: Tlv, tag: byte)
    ensures Seen(ts + [t], tag) == if t.tag == tag then Some(t.value) else Seen(ts, tag)
  {
    ValuesSnoc(ts, t, tag);
  }

  ghost function Held(has: bool, value: Text): Option<Text> {
    if has then Some(value) else None
  }

  /** What the loop holds is what the fields so far say. */
  ghost predicate CredentialsHeld(ts: seq<Tlv>, hasUsername: bool, hasPassword: bool, c: Credentials) {
    Seen(ts, USERNAME) == Held(hasUsername, c.username) && Seen(ts, PASSWORD) == Held(hasPassword, c.password)
  }

  /** The switch over tags in parse_register_request and parse_login_request. */
  method KeepCredential(t: Tlv, hasUsername: bool, hasPassword: bool, c: Credentials, ghost ts: seq<Tlv>)
    returns (ok: bool, hasUsername': bool, hasPassword': bool, d: Credentials)
    requires CredentialsHeld(ts, hasUsername, hasPassword, c)
    ensures ok <==> !TooLong(CREDENTIALS, t)
    ensures ok ==> CredentialsHeld(ts + [t], hasUsername', hasPassword', d)
  {
    ok, hasUsername', hasPassword', d := true, hasUsername, hasPassword, c;
    SeenSnoc(ts, t, USERNAME);
    SeenSnoc(ts, t, PASSWORD);
    if t.tag == USERNAME {
      if |t.value| > MAX_NAME {
        return false, hasUsername, hasPassword, c;
      }
      d, hasUsername' := c.(username := t.value), true;
    } else if t.tag == PASSWORD {
      if |t.value| > MAX_PASSWORD {
        return false, hasUsername, hasPassword, c;
      }
      d, hasPassword' := c.(password := t.value), true;
    }
  }

  /** parse_register_request and parse_login_request. */
  method ParseCredentialRequest(payload: seq<byte>) returns (rc: byte, c: Credentials)
    ensures rc == OK || rc == MALFORMED
    ensures rc == OK <==> ParseCredentials(payload).Some?
    ensures rc == OK ==> ParseCredentials(payload) == Some(c)
  {
    c := Credentials([], []);
    var hasUsername, hasPassword := false, false;
    var p := 0;
    ghost var done: seq<Tlv> := [];
    ScanStart(payload);
    while p < |payload|
      invariant Within(CREDENTIALS, payload, p, done)
      invariant CredentialsHeld(done, hasUsername, hasPassword, c)
    {
      var ok, t := ReadField(payload, p, done, CREDENTIALS);
      if !ok {
        return MALFORMED, c;
      }
      ok, hasUsername, hasPassword, c := KeepCredential(t, hasUsername, hasPassword, c, done);
      if !ok {
        return MALFORMED, c;
      }
      done, p := done + [t], p + 2 + |t.value|;
    }
    ScanEnd(payload, done);
    CredentialsParsed(payload, done);
    if !hasUsername || !hasPassword {
      return MALFORMED, c;
    }
    return OK, c;
  }

  lemma {:induction false} CredentialsParsed(payload: seq<byte>, ts: seq<Tlv>)
    requires Split(payload) == Some(ts) && Bounded(CREDENTIALS, ts)
    ensures ParseCredentials(payload).Some? <==> Seen(ts, USERNAME).Some? && Seen(ts, PASSWORD).Some?
    ensures ParseCredentials(payload).Some? ==>
              ParseCredentials(payload).value == Credentials(Seen(ts, USERNAME).value, Seen(ts, PASSWORD).value)
  {
  }

  ghost predicate WorldHeld(ts: seq<Tlv>, hasTag: bool, hasSender: bool, hasContent: bool, b: WorldBroadcast) {
    && Seen(ts, WORLD).Some? == hasTag
    && Seen(ts, SENDER) == Held(hasSender, b.sender) && Seen(ts, CONTENT) == Held(hasContent, b.content)
  }

  /** The switch over tags in parse_world_broadcast. */
  method KeepWorldField(t: Tlv, hasTag: bool, hasSender: bool, hasContent: bool, b: WorldBroadcast, ghost ts: seq<Tlv>)
    returns (ok: bool, hasTag': bool, hasSender': bool, hasContent': bool, c: WorldBroadcast)
    requires WorldHeld(ts, hasTag, hasSender, hasContent, b)
    ensures ok <==> !TooLong(WORLD_BROADCAST, t)
    ensures ok ==> WorldHeld(ts + [t], hasTag', hasSender', hasContent', c)
  {
    ok, hasTag', hasSender', hasContent', c := true, hasTag, hasSender, hasContent, b;
    SeenSnoc(ts, t, WORLD);
    SeenSnoc(ts, t, SENDER);
    SeenSnoc(ts, t, CONTENT);
    if t.tag == WORLD {
      hasTag' := true;
    } else if t.tag == SENDER {
      if |t.value| > MAX_NAME {
        ok := false;
        return;
      }
      c, hasSender' := b.(sender := t.value), true;
    } else if t.tag == CONTENT {
      c, hasContent' := b.(content := t.value), true;
    }
  }

  /** parse_world_broadcast. */
  method ParseWorldBroadcast(payload: seq<byte>) returns (rc: byte, b: WorldBroadcast)
    ensures rc == OK || rc == MALFORMED
    ensures rc == OK <==> ParseWorld(payload).Some?
    ensures rc == OK ==> ParseWorld(payload) == Some(b)
  {
    b := WorldBroadcast([], []);
    var hasTag, hasSender, hasContent := false, false, false;
    var p := 0;
    ghost var done: seq<Tlv> := [];
    ScanStart(payload);
    while p < |payload|
      invariant Within(WORLD_BROADCAST, payload, p, done)
      invariant WorldHeld(done, hasTag, hasSender, hasContent, b)
    {
      var ok, t := ReadField(payload, p, done, WORLD_BROADCAST);
      if !ok {
        return MALFORMED, b;
      }
      ok, hasTag, hasSender, hasContent, b := KeepWorldField(t, hasTag, hasSender, hasContent, b, done);
      if !ok {
        return MALFORMED, b;
      }
      done, p := done + [t], p + 2 + |t.value|;
    }
    ScanEnd(payload, done);
    WorldParsed(payload, done);
    if !hasTag || !hasSender || !hasContent {
      return MALFORMED, b;
    }
    return OK, b;
  }

  lemma {:induction false} WorldParsed(payload: seq<byte>, ts: seq<Tlv>)
    requires Split(payload) == Some(ts) && Bounded(WORLD_BROADCAST, ts)
    ensures ParseWorld(payload).Some? <==>
              Seen(ts, WORLD).Some? && Seen(ts, SENDER).Some? && Seen(ts, CONTENT).Some?
    ensures ParseWorld(payload).Some? ==>
              ParseWorld(payload).value == WorldBroadcast(Seen(ts, SENDER).value, Seen(ts, CONTENT).value)
  {
  }

  /** The optional fields of parse_p2p_broadcast: which of them the loop has met. */
  datatype P2pFound = P2pFound(tag: bool, sender: bool, recipient: bool, content: bool)

  ghost predicate P2pHeld(ts: seq<Tlv>, has: P2pFound, b: P2pBroadcast) {
    && Seen(ts, P2P).Some? == has.tag
    && Seen(ts, SENDER) == Held(has.sender, b.sender) && Seen(ts, RECIPIENT) == Held(has.recipient, b.recipient)
    && Seen(ts, CONTENT) == Held(has.content, b.content)
  }

  /** The switch over tags in parse_p2p_broadcast. */
  method KeepP2pField(t: Tlv, has: P2pFound, b: P2pBroadcast, ghost ts: seq<Tlv>)
    returns (ok: bool, has': P2pFound, c: P2pBroadcast)
    requires P2pHeld(ts, has, b)
    ensures ok <==> !TooLong(P2P_BROADCAST, t)
    ensures ok ==> P2pHeld(ts + [t], has', c)
  {
    ok, has', c := true, has, b;
    SeenSnoc(ts, t, P2P);
    SeenSnoc(ts, t, SENDER);
    SeenSnoc(ts, t, RECIPIENT);
    SeenSnoc(ts, t, CONTENT);
    if t.tag == P2P {
      has' := has.(tag := true);
    } else if t.tag == SENDER {
      if |t.value| > MAX_NAME {
        return false, has, b;
      }
      c, has' := b.(sender := t.value), has.(sender := true);
    } else if t.tag == RECIPIENT {
      if |t.value| > MAX_NAME {
        return false, has, b;
      }
      c, has' := b.(recipient := t.value), has.(recipient := true);
    } else if t.tag == CONTENT {
      c, has' := b.(content := t.value), has.(content := true);
    }
  }

  /** parse_p2p_broadcast. */
  method ParseP2pBroadcast(payload: seq<byte>) returns (rc: byte, b: P2pBroadcast)
    ensures rc == OK || rc == MALFORMED
    ensures rc == OK <==> ParseP2p(payload).Some?
    ensures rc == OK ==> ParseP2p(payload) == Some(b)
  {
    b := P2pBroadcast([], [], []);
    var has := P2pFound(false, false, false, false);
    var p := 0;
    ghost var done: seq<Tlv> := [];
    ScanStart(payload);
    while p < |payload|
      invariant Within(P2P_BROADCAST, payload, p, done)
      invariant P2pHeld(done, has, b)
    {
      var ok, t := ReadField(payload, p, done, P2P_BROADCAST);
      if !ok {
        return MALFORMED, b;
      }
      ok, has, b := KeepP2pField(t, has, b, done);
      if !ok {
        return MALFORMED, b;
      }
      done, p := done + [t], p + 2 + |t.value|;
    }
    ScanEnd(payload, done);
    P2pParsed(payload, done);
    if !has.tag || !has.sender || !has.recipient || !has.content {
      return MALFORMED, b;
    }
    return OK, b;
  }

  lemma {:induction false} P2pParsed(payload: seq<byte>, ts: seq<Tlv>)
    requires Split(payload) == Some(ts) && Bounded(P2P_BROADCAST, ts)
    ensures ParseP2p(payload).Some? <==>
              Seen(ts, P2P).Some? && Seen(ts, SENDER).Some? && Seen(ts, RECIPIENT).Some? && Seen(ts, CONTENT).Some?
    ensures ParseP2p(payload).Some? ==>
              ParseP2p(payload).value ==
              P2pBroadcast(Seen(ts, SENDER).value, Seen(ts, RECIPIENT).value, Seen(ts, CONTENT).value)
  {
  }

  /**
   * parse_register_response and parse_login_response, which differ only in the
   * code they give a response that lacks a field. `previous` is the id the caller's
   * variable holds beforehand.
   */
  method ParseAccountResponse(payload: seq<byte>, previous: u32, missing: int) returns (rc: int, a: Account)
    requires IdsFit(payload, 0)
    requires missing != OK
    ensures rc == OK <==> ParseAccount(payload, previous).Some?
    ensures rc == OK ==> ParseAccount(payload, previous) == Some(a)
    ensures rc != OK ==> rc == if Malformed(ACCOUNT, payload) then MALFORMED else missing
  {
    a := Account(previous, []);
    var hasId, hasName := false, false;
    var p := 0;
    ghost var done: seq<Tlv> := [];
    ScanStart(payload);
    while p < |payload|
      invariant Within(ACCOUNT, payload, p, done) && IdsFit(payload, p)
      invariant AccountHeld(previous, done, hasId, hasName, a)
    {
      var ok, t := ReadAccountField(payload, p, done);
      if !ok {
        return MALFORMED, a;
      }
      ok, hasId, hasName, a := KeepAccountField(t, hasId, hasName, a, previous, done);
      if !ok {
        return MALFORMED, a;
      }
      done, p := done + [t], p + 2 + |t.value|;
    }
    ScanEnd(payload, done);
    AccountParsed(payload, done, previous);
    if !hasId || !hasName {
      return missing, a;
    }
    return OK, a;
  }

  /** A step in which an id, if it comes to one, is short enough to be copied. */
  method ReadAccountField(payload: seq<byte>, p: nat, ghost done: seq<Tlv>) returns (ok: bool, t: Tlv)
    requires Within(ACCOUNT, payload, p, done) && p < |payload| && IdsFit(payload, p)
    ensures !ok ==> Malformed(ACCOUNT, payload)
    ensures ok ==> p + 2 + |t.value| <= |payload| && (t.tag == USER_ID ==> |t.value| <= 4)
    ensures ok && !TooLong(ACCOUNT, t) ==>
              Within(ACCOUNT, payload, p + 2 + |t.value|, done + [t]) && IdsFit(payload, p + 2 + |t.value|)
    ensures ok && TooLong(ACCOUNT, t) ==> Malformed(ACCOUNT, payload)
  {
    ok, t := ReadField(payload, p, done, ACCOUNT);
  }

  ghost predicate AccountHeld(previous: u32, ts: seq<Tlv>, hasId: bool, hasName: bool, a: Account) {
    && Has(ts, USER_ID) == hasId && IdSeen(previous, ts) == Some(a.id)
    && Seen(ts, USERNAME) == Held(hasName, a.name)
  }

  /** The switch over tags in parse_register_response and parse_login_response. */
  method KeepAccountField(t: Tlv, hasId: bool, hasName: bool, a: Account, ghost previous: u32, ghost ts: seq<Tlv>)
    returns (ok: bool, hasId': bool, hasName': bool, b: Account)
    requires AccountHeld(previous, ts, hasId, hasName, a)
    requires t.tag == USER_ID ==> |t.value| <= 4
    ensures ok <==> !(t.tag == USERNAME && |t.value| > MAX_NAME)
    ensures ok ==> AccountHeld(previous, ts + [t], hasId', hasName', b)
  {
    ok, hasId', hasName', b := true, hasId, hasName, a;
    SeenSnoc(ts, t, USERNAME);
    IdSeenSnoc(previous, ts, t);
    if t.tag == USER_ID {
      b, hasId' := a.(id := OverwrittenId(a.id, t.value)), true;
    } else if t.tag == USERNAME {
      if |t.value| > MAX_NAME {
        return false, hasId, hasName, a;
      }
      b, hasName' := a.(name := t.value), true;
    }
  }

  /** The id after copying every one met, if none of them was too long to copy. */
  ghost function IdSeen(previous: u32, ts: seq<Tlv>): Option<u32> {
    var ids := Values(ts, USER_ID);
    if forall k | 0 <= k < |ids| :: |ids[k]| <= 4 then Some(CopiedId(previous, ids)) else None
  }

  lemma {:induction false} IdSeenSnoc(previous: u32, ts: seq<Tlv>, t: Tlv)
    requires IdSeen(previous, ts).Some? && (t.tag == USER_ID ==> |t.value| <= 4)
    ensures Has(ts + [t], USER_ID) <==> t.tag == USER_ID || Has(ts, USER_ID)
    ensures var id := IdSeen(previous, ts).value;
            IdSeen(previous, ts + [t]) == Some(if t.tag == USER_ID then OverwrittenId(id, t.value) else id)
  {
    ValuesSnoc(ts, t, USER_ID);
    var ids := Values(ts, USER_ID);
    assert (ids + [t.value])[..|ids|] == ids;
  }

  lemma {:induction false} AccountParsed(payload: seq<byte>, ts: seq<Tlv>, previous: u32)
    requires Split(payload) == Some(ts) && Bounded(ACCOUNT, ts) && IdSeen(previous, ts).Some?
    ensures ParseAccount(payload, previous).Some? <==> Has(ts, USER_ID) && Seen(ts, USERNAME).Some?
    ensures ParseAccount(payload, previous).Some? ==>
              ParseAccount(payload, previous).value == Account(IdSeen(previous, ts).value, Seen(ts, USERNAME).value)
  {
  }

}
