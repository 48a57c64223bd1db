/**
 * Tag-length-value payloads: their encoding, their unique decomposition, and what
 * a parser that knows some of the tags may read off one.
 */
module Tlv {
  import opened Bytes

  datatype Tlv = Tlv(tag: byte, value: Text)

  /** A length is cast to `uint8_t`, that is reduced modulo 256, and that many bytes are copied. */
  function Narrow(value: Text): (r: Text)
    ensures |r| < 256
    ensures |value| < 256 ==> r == value
  {
    if |value| < 256 then value else Narrow(value[..|value| - 256])
  }

  function Encode(t: Tlv): (r: seq<byte>)
    ensures 2 <= |r| <= 257
  {
    [t.tag, |Narrow(t.value)|] + Narrow(t.value)
  }

  function EncodeAll(ts: seq<Tlv>): seq<byte> {
    if ts == [] then [] else Encode(ts[0]) + EncodeAll(ts[1..])
  }

  lemma {:induction false} EncodeAllSize(ts: seq<Tlv>)
    ensures 2 * |ts| <= |EncodeAll(ts)| <= 257 * |ts|
  {
    if ts != [] {
      EncodeAllSize(ts[1..]);
    }
  }

  lemma {:induction false} EncodeAllAppend(ts: seq<Tlv>, us: seq<Tlv>)
    ensures EncodeAll(ts + us) == EncodeAll(ts) + EncodeAll(us)
  {
    if ts == [] {
      assert ts + us == us;
    } else {
      EncodeAllAppend(ts[1..], us);
      assert (ts + us)[1..] == ts[1..] + us && (ts + us)[0] == ts[0];
      var x, y, z := Encode(ts[0]), EncodeAll(ts[1..]), EncodeAll(us);
      assert x + (y + z) == x + y + z;
    }
  }

  /** What one more `write_tlv` leaves behind. */
  lemma {:induction false} EncodeSnoc(ts: seq<Tlv>, t: Tlv)
    ensures EncodeAll(ts + [t]) == EncodeAll(ts) + Encode(t)
  {
    EncodeAllAppend(ts, [t]);
    assert EncodeAll([t]) == Encode(t) + EncodeAll([]);
  }

  /** Every value fits its one-byte length. */
  predicate Fits(ts: seq<Tlv>) {
    forall k | 0 <= k < |ts| :: |ts[k].value| < 256
  }

  // ---------- Decomposition ----------

  function After<T>(first: T, rest: Option<seq<T>>): Option<seq<T>> {
    match rest
    case None => None
    case Some(ts) => Some([first] + ts)
  }

  function Joined<T>(front: seq<T>, rest: Option<seq<T>>): Option<seq<T>> {
    match rest
    case None => None
    case Some(ts) => Some(front + ts)
  }

  predicate StartsComplete(p: seq<byte>) {
    |p| >= 2 && 2 + p[1] as int <= |p|
  }

  function First(p: seq<byte>): Tlv
    requires StartsComplete(p)
  {
    Tlv(p[0], p[2..2 + p[1] as int])
  }

  /** The fields a payload consists of, if it ends exactly at a field boundary. */
  function Split(p: seq<byte>): Option<seq<Tlv>>
    decreases |p|
  {
    if p == [] then Some([])
    else if !StartsComplete(p) then None
    else After(First(p), Split(p[2 + p[1] as int..]))
  }

  /** Only a payload that encodes its fields splits into them. */
  lemma {:induction false} SplitSound(p: seq<byte>)
    ensures Split(p).Some? ==> Fits(Split(p).value) && EncodeAll(Split(p).value) == p
    decreases |p|
  {
    if p != [] && StartsComplete(p) {
      var tail := p[2 + p[1] as int..];
      SplitSound(tail);
      if Split(tail).Some? {
        var ts := Split(p).value;
        assert ts[1..] == Split(tail).value;
        assert p == Encode(First(p)) + tail;
      }
    }
  }

  lemma {:induction false} SplitOne(t: Tlv, rest: seq<byte>)
    requires |t.value| < 256
    ensures Split(Encode(t) + rest) == After(t, Split(rest))
  {
    var p := Encode(t) + rest;
    assert p[2..2 + |t.value|] == t.value;
    assert p[2 + |t.value|..] == rest;
  }

  /** Fields at the front of a payload are recovered, whatever follows them. */
  lemma {:induction false} SplitEncoded(ts: seq<Tlv>, rest: seq<byte>)
    requires Fits(ts)
    ensures Split(EncodeAll(ts) + rest) == Joined(ts, Split(rest))
  {
    if ts == [] {
      assert EncodeAll(ts) + rest == rest;
      assert Split(rest).Some? ==> [] + Split(rest).value == Split(rest).value;
    } else {
      var x, y := Encode(ts[0]), EncodeAll(ts[1..]);
      assert (x + y) + rest == x + (y + rest);
      SplitOne(ts[0], y + rest);
      SplitEncoded(ts[1..], rest);
      JoinedAfter(ts, Split(rest));
    }
  }

  lemma {:induction false} JoinedAfter<T>(ts: seq<T>, rest: Option<seq<T>>)
    requires ts != []
    ensures After(ts[0], Joined(ts[1..], rest)) == Joined(ts, rest)
  {
    assert rest.Some? ==> [ts[0]] + (ts[1..] + rest.value) == ts + rest.value;
  }

  /** A payload has at most one decomposition, and `Split` finds it. */
  lemma {:induction false} SplitExact(p: seq<byte>, ts: seq<Tlv>)
    ensures Split(p) == Some(ts) <==> Fits(ts) && p == EncodeAll(ts)
  {
    SplitSound(p);
    if Fits(ts) && p == EncodeAll(ts) {
      SplitEncoded(ts, []);
      assert p + [] == p && ts + [] == ts;
    }
  }

  // ---------- Reading fields ----------

  /** The values that occur under a tag, in order. */
  function Values(ts: seq<Tlv>, tag: byte): seq<Text> {
    if ts == [] then []
    else if ts[0].tag == tag then [ts[0].value] + Values(ts[1..], tag)
    else Values(ts[1..], tag)
  }

  lemma {:induction false} ValuesAppend(ts: seq<Tlv>, us: seq<Tlv>, tag: byte)
    ensures Values(ts + us, tag) == Values(ts, tag) + Values(us, tag)
  {
    if ts == [] {
      assert ts + us == us;
    } else {
      ValuesAppend(ts[1..], us, tag);
      assert (ts + us)[1..] == ts[1..] + us && (ts + us)[0] == ts[0];
    }
  }

  /** A step of a parser's loop. */
  lemma {:induction false} ValuesSnoc(ts: seq<Tlv>, t: Tlv, tag: byte)
    ensures Values(ts + [t], tag) == if t.tag == tag then Values(ts, tag) + [t.value] else Values(ts, tag)
  {
    ValuesAppend(ts, [t], tag);
    assert Values([t], tag) == if t.tag == tag then [t.value] else [];
  }

  predicate Has(ts: seq<Tlv>, tag: byte) {
    Values(ts, tag) != []
  }

  lemma {:induction false} HasExact(ts: seq<Tlv>, tag: byte)
    ensures Has(ts, tag) <==> exists t :: t in ts && t.tag == tag
  {
    if ts != [] {
      HasExact(ts[1..], tag);
      assert forall t :: t in ts <==> t == ts[0] || t in ts[1..];
    }
  }

  function Last(ts: seq<Tlv>, tag: byte): Text
    requires Has(ts, tag)
  {
    Values(ts, tag)[|Values(ts, tag)| - 1]
  }

  /** Position `k` is the last one that carries the tag. */
  predicate LastAt(ts: seq<Tlv>, tag: byte, k: nat) {
    k < |ts| && ts[k].tag == tag && forall j | k < j < |ts| :: ts[j].tag != tag
  }

  /** `Last` is the value at the last position that carries the tag. */
  lemma {:induction false} LastOccurrence(ts: seq<Tlv>, tag: byte, k: nat)
    requires LastAt(ts, tag, k)
    ensures Has(ts, tag) && Last(ts, tag) == ts[k].value
  {
    var n := |ts| - 1;
    assert ts == ts[..n] + [ts[n]];
    ValuesSnoc(ts[..n], ts[n], tag);
    if k < n {
      LastOccurrence(ts[..n], tag, k);
    }
  }

  /** The tags a parser knows: those it requires, and the longest value it takes under a tag. */
  datatype Schema = Schema(required: set<byte>, limits: map<byte, nat>)

  predicate Bounded(s: Schema, ts: seq<Tlv>) {
    forall tag, k | tag in s.limits && 0 <= k < |Values(ts, tag)| :: |Values(ts, tag)[k]| <= s.limits[tag]
  }

  predicate Accepts(s: Schema, ts: seq<Tlv>) {
    Bounded(s, ts) && forall tag | tag in s.required :: Has(ts, tag)
  }

  /** Bounded payloads are those in which no occurrence of a limited tag is too long, the last one or not. */
  lemma {:induction false} BoundedMeans(s: Schema, ts: seq<Tlv>)
    ensures Bounded(s, ts) <==>
            forall k | 0 <= k < |ts| :: ts[k].tag in s.limits ==> |ts[k].value| <= s.limits[ts[k].tag]
  {
    if ts != [] {
      var n := |ts| - 1;
      assert ts == ts[..n] + [ts[n]];
      BoundedMeans(s, ts[..n]);
      BoundedSnoc(s, ts[..n], ts[n]);
    }
  }

  lemma {:induction false} BoundedSnoc(s: Schema, ts: seq<Tlv>, t: Tlv)
    ensures Bounded(s, ts + [t]) <==> Bounded(s, ts) && (t.tag in s.limits ==> |t.value| <= s.limits[t.tag])
  {
    forall tag {
      ValuesSnoc(ts, t, tag);
    }
    if Bounded(s, ts + [t]) {
      forall tag, k | tag in s.limits && 0 <= k < |Values(ts, tag)| ensures |Values(ts, tag)[k]| <= s.limits[tag] {
        assert Values(ts + [t], tag)[k] == Values(ts, tag)[k];
      }
      if t.tag in s.limits {
        assert Values(ts + [t], t.tag)[|Values(ts, t.tag)|] == t.value;
      }
    }
  }

  /** Once a field is too long, nothing that follows makes the payload acceptable. */
  lemma {:induction false} BoundedPrefix(s: Schema, ts: seq<Tlv>, us: seq<Tlv>)
    requires Bounded(s, ts + us)
    ensures Bounded(s, ts)
  {
    BoundedMeans(s, ts);
    BoundedMeans(s, ts + us);
    forall k | 0 <= k < |ts| ensures ts[k].tag in s.limits ==> |ts[k].value| <= s.limits[ts[k].tag] {
      assert (ts + us)[k] == ts[k];
    }
  }

  // ---------- Schema evolution ----------

  /** The two payloads say the same about every tag the parser knows. */
  ghost predicate SameFields(s: Schema, ts: seq<Tlv>, us: seq<Tlv>) {
    forall tag | tag in s.required + s.limits.Keys :: Values(ts, tag) == Values(us, tag)
  }

  lemma {:induction false} SameFieldsAccepted(s: Schema, ts: seq<Tlv>, us: seq<Tlv>)
    requires SameFields(s, ts, us)
    ensures Accepts(s, ts) <==> Accepts(s, us)
    ensures forall tag | tag in s.required && Accepts(s, ts) :: Last(ts, tag) == Last(us, tag)
  {
  }

  /** A field under a tag the parser does not know may stand at any field boundary. */
  lemma {:induction false} UnknownFieldIgnored(s: Schema, ts: seq<Tlv>, t: Tlv, us: seq<Tlv>)
    requires t.tag !in s.required + s.limits.Keys
    ensures SameFields(s, ts + [t] + us, ts + us)
  {
    forall tag | tag in s.required + s.limits.Keys ensures Values(ts + [t] + us, tag) == Values(ts + us, tag) {
      ValuesSnoc(ts, t, tag);
      ValuesAppend(ts + [t], us, tag);
      ValuesAppend(ts, us, tag);
    }
  }

  predicate DistinctTags(ts: seq<Tlv>) {
    forall j, k | 0 <= j < k < |ts| :: ts[j].tag != ts[k].tag
  }

  /** The same fields under distinct tags may come in any order. */
  lemma {:induction false} ReorderingIgnored(s: Schema, ts: seq<Tlv>, us: seq<Tlv>)
    requires DistinctTags(ts) && DistinctTags(us)
    requires forall t :: t in ts <==> t in us
    ensures SameFields(s, ts, us)
  {
    forall tag | tag in s.required + s.limits.Keys ensures Values(ts, tag) == Values(us, tag) {
      if t :| t in ts && t.tag == tag {
        OnlyValue(ts, t);
        OnlyValue(us, t);
      } else {
        NoValues(ts, tag);
        NoValues(us, tag);
      }
    }
  }

  lemma {:induction false} OnlyValue(ts: seq<Tlv>, t: Tlv)
    requires DistinctTags(ts) && t in ts
    ensures Values(ts, t.tag) == [t.value]
  {
    var k :| 0 <= k < |ts| && ts[k] == t;
    var a, b := ts[..k], ts[k + 1..];
    assert ts == a + [t] + b;
    ValuesSnoc(a, t, t.tag);
    ValuesAppend(a + [t], b, t.tag);
    NoValues(a, t.tag);
    NoValues(b, t.tag);
  }

  lemma {:induction false} NoValues(ts: seq<Tlv>, tag: byte)
    requires forall x | x in ts :: x.tag != tag
    ensures Values(ts, tag) == []
  {
    if ts != [] {
      NoValues(ts[1..], tag);
    }
  }
}
