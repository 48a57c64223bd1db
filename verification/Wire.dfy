/** The messages byte by byte, from the first of the header to the last of the payload. */
module Wire {
  import opened Bytes
  import opened Frames
  import opened Tlv
  import opened Payloads

  /** A length below 65536 in network order. */
  lemma {:induction false} ShortLength(n: nat)
    requires n < 0x1_0000
    ensures BigEndian(n) == [0, 0, n / 256, n % 256]
  {
    BigEndianUnique(BigEndian(n), [0, 0, n / 256, n % 256]);
  }

  lemma {:induction false} TwoFields(s: Tlv, t: Tlv)
    requires |s.value| < 256 && |t.value| < 256
    ensures EncodeAll([s, t]) == [s.tag, |s.value|] + s.value + [t.tag, |t.value|] + t.value
  {
    EncodeSnoc([s], t);
    EncodeSnoc([], s);
    assert [] + [s] == [s] && [s] + [t] == [s, t];
  }

  lemma {:induction false} ThreeFields(s: Tlv, t: Tlv, u: Tlv)
    requires |s.value| < 256 && |t.value| < 256 && |u.value| < 256
    ensures EncodeAll([s, t, u]) ==
            [s.tag, |s.value|] + s.value + [t.tag, |t.value|] + t.value + [u.tag, |u.value|] + u.value
  {
    TwoFields(s, t);
    EncodeSnoc([s, t], u);
    assert [s, t] + [u] == [s, t, u];
  }

  lemma {:induction false} FourFields(s: Tlv, t: Tlv, u: Tlv, v: Tlv)
    requires |s.value| < 256 && |t.value| < 256 && |u.value| < 256 && |v.value| < 256
    ensures EncodeAll([s, t, u, v]) ==
            [s.tag, |s.value|] + s.value + [t.tag, |t.value|] + t.value +
            [u.tag, |u.value|] + u.value + [v.tag, |v.value|] + v.value
  {
    ThreeFields(s, t, u);
    EncodeSnoc([s, t, u], v);
    assert [s, t, u] + [v] == [s, t, u, v];
  }

  /** A register (kind 0) or login (kind 1) request. */
  lemma {:induction false} CredentialBytes(kind: byte, c: Credentials)
    requires |c.username| <= 32 && |c.password| <= 32
    ensures Serialize(CredentialMessage(kind, c)) ==
            [1, kind, 0, 0, 0, 0, 4 + |c.username| + |c.password|] +
            [0, |c.username|] + c.username + [1, |c.password|] + c.password
  {
    TwoFields(Tlv(USERNAME, c.username), Tlv(PASSWORD, c.password));
    ShortLength(4 + |c.username| + |c.password|);
  }

  /** The answer to either, when it succeeds. */
  lemma {:induction false} AccountBytes(kind: byte, a: Account)
    requires |a.name| <= 32
    ensures Serialize(AccountMessage(kind, a)) ==
            [1, kind, 0, 0, 0, 0, 8 + |a.name|] + [6, 4] + BigEndian(a.id) + [0, |a.name|] + a.name
  {
    TwoFields(Tlv(USER_ID, BigEndian(a.id)), Tlv(USERNAME, a.name));
    ShortLength(8 + |a.name|);
  }

  /** A world broadcast, as request and as notification. */
  lemma {:induction false} WorldBytes(b: WorldBroadcast)
    requires |b.sender| <= 32 && |b.content| <= 255
    ensures var n := 6 + |b.sender| + |b.content|;
            Serialize(WorldMessage(b)) ==
            [1, 2, 0, 0, 0, n / 256, n % 256] +
            [4, 0] + [9, |b.sender|] + b.sender + [11, |b.content|] + b.content
  {
    ThreeFields(Tlv(WORLD, []), Tlv(SENDER, b.sender), Tlv(CONTENT, b.content));
    ShortLength(6 + |b.sender| + |b.content|);
    assert [WORLD, 0] + [] == [4, 0];
  }

  /** A private message, as request and as notification. */
  lemma {:induction false} P2pBytes(b: P2pBroadcast)
    requires |b.sender| <= 32 && |b.recipient| <= 32 && |b.content| <= 255
    ensures var n := 8 + |b.sender| + |b.recipient| + |b.content|;
            Serialize(P2pMessage(b)) ==
            [1, 2, 0, 0, 0, n / 256, n % 256] +
            [5, 0] + [9, |b.sender|] + b.sender + [10, |b.recipient|] + b.recipient + [11, |b.content|] + b.content
  {
    FourFields(Tlv(P2P, []), Tlv(SENDER, b.sender), Tlv(RECIPIENT, b.recipient), Tlv(CONTENT, b.content));
    ShortLength(8 + |b.sender| + |b.recipient| + |b.content|);
    assert [P2P, 0] + [] == [5, 0];
  }

  /** A refusal: a bare header. */
  lemma {:induction false} StatusBytes(kind: byte, rc: byte)
    ensures Serialize(StatusOnly(kind, rc)) == [1, kind, rc, 0, 0, 0, 0]
  {
    ShortLength(0);
  }

  // ---------- What is accepted ----------

  predicate Carries(ts: seq<Tlv>, tag: byte) {
    exists t | t in ts :: t.tag == tag
  }

  /** Every field under the tag is at most that long, whether or not a later one replaces it. */
  predicate AtMost(ts: seq<Tlv>, tag: byte, limit: nat) {
    forall t | t in ts :: t.tag == tag ==> |t.value| <= limit
  }

  /** The value of the last field under the tag. */
  predicate LastValue(ts: seq<Tlv>, tag: byte, value: Text) {
    exists k | 0 <= k < |ts| :: LastAt(ts, tag, k) && ts[k].value == value
  }

  lemma {:induction false} LastExact(ts: seq<Tlv>, tag: byte)
    requires Has(ts, tag)
    ensures LastValue(ts, tag, Last(ts, tag))
  {
    var n := |ts| - 1;
    assert ts == ts[..n] + [ts[n]];
    ValuesSnoc(ts[..n], ts[n], tag);
    if ts[n].tag == tag {
      assert LastAt(ts, tag, n);
    } else {
      LastExact(ts[..n], tag);
      var k :| 0 <= k < n && LastAt(ts[..n], tag, k) && ts[..n][k].value == Last(ts, tag);
      assert LastAt(ts, tag, k);
    }
  }

  lemma {:induction false} FieldsOf(s: Schema, ts: seq<Tlv>)
    requires Fits(ts)
    ensures Fields(s, EncodeAll(ts)) == if Accepts(s, ts) then Some(ts) else None
  {
    SplitExact(EncodeAll(ts), ts);
  }

  /** Credentials need a username and a password of at most 32 bytes. */
  lemma {:induction false} CredentialsAccepted(ts: seq<Tlv>)
    ensures Accepts(CREDENTIALS, ts) <==> Carries(ts, 0) && Carries(ts, 1) && AtMost(ts, 0, 32) && AtMost(ts, 1, 32)
  {
    BoundedMeans(CREDENTIALS, ts);
    HasExact(ts, 0);
    HasExact(ts, 1);
  }

  /** A world broadcast needs its tag, a sender of at most 32 bytes and a content. */
  lemma {:induction false} WorldAccepted(ts: seq<Tlv>)
    ensures Accepts(WORLD_BROADCAST, ts) <==> Carries(ts, 4) && Carries(ts, 9) && Carries(ts, 11) && AtMost(ts, 9, 32)
  {
    BoundedMeans(WORLD_BROADCAST, ts);
    HasExact(ts, 4);
    HasExact(ts, 9);
    HasExact(ts, 11);
  }

  /** A private message needs its tag, a sender and a recipient of at most 32 bytes and a content. */
  lemma {:induction false} P2pAccepted(ts: seq<Tlv>)
    ensures Accepts(P2P_BROADCAST, ts) <==>
              && Carries(ts, 5) && Carries(ts, 9) && Carries(ts, 10) && Carries(ts, 11)
              && AtMost(ts, 9, 32) && AtMost(ts, 10, 32)
  {
    BoundedMeans(P2P_BROADCAST, ts);
    HasExact(ts, 5);
    HasExact(ts, 9);
    HasExact(ts, 10);
    HasExact(ts, 11);
  }

  /** A parser takes just the payloads with the fields it needs, and the last field under each tag counts. */
  lemma {:induction false} CredentialsExact(ts: seq<Tlv>)
    requires Fits(ts)
    ensures var c := ParseCredentials(EncodeAll(ts));
            && (c.Some? <==> Carries(ts, 0) && Carries(ts, 1) && AtMost(ts, 0, 32) && AtMost(ts, 1, 32))
            && (c.Some? ==> LastValue(ts, 0, c.value.username) && LastValue(ts, 1, c.value.password))
  {
    FieldsOf(CREDENTIALS, ts);
    CredentialsAccepted(ts);
    if Accepts(CREDENTIALS, ts) {
      LastExact(ts, 0);
      LastExact(ts, 1);
    }
  }

  lemma {:induction false} WorldExact(ts: seq<Tlv>)
    requires Fits(ts)
    ensures var b := ParseWorld(EncodeAll(ts));
            && (b.Some? <==> Carries(ts, 4) && Carries(ts, 9) && Carries(ts, 11) && AtMost(ts, 9, 32))
            && (b.Some? ==> LastValue(ts, 9, b.value.sender) && LastValue(ts, 11, b.value.content))
  {
    FieldsOf(WORLD_BROADCAST, ts);
    WorldAccepted(ts);
    if Accepts(WORLD_BROADCAST, ts) {
      LastExact(ts, 9);
      LastExact(ts, 11);
    }
  }

  lemma {:induction false} P2pExact(ts: seq<Tlv>)
    requires Fits(ts)
    ensures var b := ParseP2p(EncodeAll(ts));
            && (b.Some? <==>
                  && Carries(ts, 5) && Carries(ts, 9) && Carries(ts, 10) && Carries(ts, 11)
                  && AtMost(ts, 9, 32) && AtMost(ts, 10, 32))
            && (b.Some? ==>
                  && LastValue(ts, 9, b.value.sender) && LastValue(ts, 10, b.value.recipient)
                  && LastValue(ts, 11, b.value.content))
  {
    FieldsOf(P2P_BROADCAST, ts);
    P2pAccepted(ts);
    if Accepts(P2P_BROADCAST, ts) {
      LastExact(ts, 9);
      LastExact(ts, 10);
      LastExact(ts, 11);
    }
  }
}
