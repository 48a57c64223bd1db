/**
 * The frame layer of the protocol: a 7-byte header followed by the payload, the
 * server's incremental decoder, and the client's blocking reader.
 */
module Frames {
  import opened Bytes

  const HEADER_SIZE := 7
  const MAX_PAYLOAD := 4096

  /** The length of a payload is held in a `uint32_t`. */
  type Payload = p: seq<byte> | |p| < U32_LIMIT

  datatype Message = Message(version: byte, kind: byte, rc: byte, payload: Payload)

  // ---------- Writing ----------

  function Serialize(m: Message): (r: seq<byte>)
    ensures |r| == HEADER_SIZE + |m.payload|
  {
    [m.version, m.kind, m.rc] + BigEndian(|m.payload|) + m.payload
  }

  function Concat(ms: seq<Message>): seq<byte> {
    if ms == [] then [] else Serialize(ms[0]) + Concat(ms[1..])
  }

  predicate InLimit(ms: seq<Message>) {
    forall k | 0 <= k < |ms| :: |ms[k].payload| <= MAX_PAYLOAD
  }

  lemma {:induction false} ConcatAppend(ms: seq<Message>, ns: seq<Message>)
    ensures Concat(ms + ns) == Concat(ms) + Concat(ns)
  {
    if ms == [] {
      assert ms + ns == ns;
    } else {
      ConcatAppend(ms[1..], ns);
      assert (ms + ns)[1..] == ms[1..] + ns && (ms + ns)[0] == ms[0];
      var x, y, z := Serialize(ms[0]), Concat(ms[1..]), Concat(ns);
      assert x + (y + z) == x + y + z;
    }
  }

  lemma {:induction false} ConcatOne(ms: seq<Message>, m: Message)
    ensures Concat(ms + [m]) == Concat(ms) + Serialize(m)
  {
    ConcatAppend(ms, [m]);
    assert Concat([m]) == Serialize(m) + Concat([]);
  }

  // ---------- Reading a header ----------

  function LengthField(buffer: seq<byte>): u32
    requires |buffer| >= HEADER_SIZE
  {
    FromBigEndian(buffer[3..7])
  }

  /** The message at the head of a buffer that holds all of it. */
  function Head(buffer: seq<byte>): (m: Message)
    requires |buffer| >= HEADER_SIZE && |buffer| >= HEADER_SIZE + LengthField(buffer)
    ensures |m.payload| == LengthField(buffer)
  {
    Message(buffer[0], buffer[1], buffer[2], buffer[7..7 + LengthField(buffer)])
  }

  /** A complete message is exactly the bytes its parse serialises to. */
  lemma {:induction false} HeadSerialized(buffer: seq<byte>)
    requires |buffer| >= HEADER_SIZE && |buffer| >= HEADER_SIZE + LengthField(buffer)
    ensures buffer == Serialize(Head(buffer)) + buffer[HEADER_SIZE + LengthField(buffer)..]
  {
    var n := LengthField(buffer);
    BigEndianUnique(buffer[3..7], BigEndian(n));
    assert buffer == buffer[..3] + buffer[3..7] + buffer[7..7 + n] + buffer[7 + n..];
  }

  /** The parser of the header undoes the serialiser at the head of any buffer. */
  lemma {:induction false} HeadOfSerialized(m: Message, rest: seq<byte>)
    ensures LengthField(Serialize(m) + rest) == |m.payload|
    ensures Head(Serialize(m) + rest) == m
    ensures (Serialize(m) + rest)[HEADER_SIZE + |m.payload|..] == rest
  {
    assert (Serialize(m) + rest)[3..7] == BigEndian(|m.payload|);
    assert (Serialize(m) + rest)[7..7 + |m.payload|] == m.payload;
  }

  // ---------- The server's decoder ----------

  /** What the head of an incoming buffer allows the server to do. */
  datatype Progress = NeedMore | TooBig | Ready(frame: Message)

  /**
   * A request is looked at once the header and one further byte are there, even
   * when its payload is empty.
   */
  function Examine(buffer: seq<byte>): (p: Progress)
    ensures p.Ready? ==> HEADER_SIZE + |p.frame.payload| <= |buffer| && |p.frame.payload| <= MAX_PAYLOAD
    ensures p.NeedMore? ==> |buffer| < HEADER_SIZE + MAX_PAYLOAD
  {
    if |buffer| < HEADER_SIZE + 1 then NeedMore
    else if LengthField(buffer) > MAX_PAYLOAD then TooBig
    else if Add32(HEADER_SIZE, LengthField(buffer)) > |buffer| then NeedMore
    else Ready(Head(buffer))
  }

  datatype Decoded = Decoded(frames: seq<Message>, rest: seq<byte>, oversize: bool)

  function Prepend(ms: seq<Message>, d: Decoded): Decoded {
    d.(frames := ms + d.frames)
  }

  /** All requests at the head of a buffer, what is left, and whether an oversized header stopped the decoder. */
  function Decode(buffer: seq<byte>): Decoded
    decreases |buffer|
  {
    match Examine(buffer)
    case NeedMore => Decoded([], buffer, false)
    case TooBig => Decoded([], buffer, true)
    case Ready(m) => Prepend([m], Decode(buffer[HEADER_SIZE + |m.payload|..]))
  }

  /** Bytes that arrive later never change a verdict already reached. */
  lemma {:induction false} ExamineStable(a: seq<byte>, b: seq<byte>)
    requires !Examine(a).NeedMore?
    ensures Examine(a + b) == Examine(a)
  {
    assert (a + b)[3..7] == a[3..7];
    if Examine(a).Ready? {
      var n := |Examine(a).frame.payload|;
      assert (a + b)[7..7 + n] == a[7..7 + n];
    }
  }

  /** Decoding goes on where it stopped, unless an oversized header stopped it for good. */
  function Continue(d: Decoded, more: seq<byte>): Decoded {
    if d.oversize then d.(rest := d.rest + more) else Prepend(d.frames, Decode(d.rest + more))
  }

  lemma {:induction false} ContinuePrepended(ms: seq<Message>, d: Decoded, more: seq<byte>)
    ensures Continue(Prepend(ms, d), more) == Prepend(ms, Continue(d, more))
  {
    var later := Decode(d.rest + more).frames;
    assert (ms + d.frames) + later == ms + (d.frames + later);
  }

  /** Decoding a stream is decoding its first part, then what that left followed by the second part. */
  lemma {:induction false} DecodeSplit(a: seq<byte>, b: seq<byte>)
    ensures Decode(a + b) == Continue(Decode(a), b)
    decreases |a|
  {
    match Examine(a)
    case NeedMore =>
      assert [] + Decode(a + b).frames == Decode(a + b).frames;
    case TooBig =>
      ExamineStable(a, b);
    case Ready(m) =>
      var n := HEADER_SIZE + |m.payload|;
      ExamineStable(a, b);
      assert (a + b)[n..] == a[n..] + b;
      DecodeSplit(a[n..], b);
      ContinuePrepended([m], Decode(a[n..]), b);
  }

  /** If `b` is what remains of `a` after serving `ms`, this stays so when both grow by `c`. */
  lemma {:induction false} DecodeExtends(ms: seq<Message>, a: seq<byte>, b: seq<byte>, c: seq<byte>)
    requires Decode(a) == Prepend(ms, Decode(b))
    ensures Decode(a + c) == Prepend(ms, Decode(b + c))
  {
    DecodeSplit(a, c);
    DecodeSplit(b, c);
    ContinuePrepended(ms, Decode(b), c);
  }

  /** The decoder neither loses, invents nor reorders bytes, and what it leaves cannot be served. */
  lemma {:induction false} DecodeConserves(buffer: seq<byte>)
    ensures var d := Decode(buffer);
            && buffer == Concat(d.frames) + d.rest
            && Decode(d.rest) == Decoded([], d.rest, d.oversize)
            && (!d.oversize ==> |d.rest| < HEADER_SIZE + MAX_PAYLOAD)
            && InLimit(d.frames)
    decreases |buffer|
  {
    match Examine(buffer)
    case NeedMore =>
    case TooBig =>
    case Ready(m) =>
      var tail := buffer[HEADER_SIZE + |m.payload|..];
      HeadSerialized(buffer);
      DecodeConserves(tail);
      var d := Decode(tail);
      assert ([m] + d.frames)[1..] == d.frames;
      assert Serialize(m) + (Concat(d.frames) + d.rest) == (Serialize(m) + Concat(d.frames)) + d.rest;
  }

  /** Any byte after an in-limit request, or any byte of payload, makes it servable. */
  lemma {:induction false} ExamineSerialized(m: Message, rest: seq<byte>)
    requires |m.payload| <= 4096
    requires m.payload != [] || rest != []
    ensures Examine(Serialize(m) + rest) == Ready(m)
    ensures (Serialize(m) + rest)[HEADER_SIZE + |m.payload|..] == rest
  {
    HeadOfSerialized(m, rest);
  }

  lemma {:induction false} DecodeServes(m: Message, rest: seq<byte>)
    requires |m.payload| <= MAX_PAYLOAD
    requires m.payload != [] || rest != []
    ensures Decode(Serialize(m) + rest) == Prepend([m], Decode(rest))
  {
    ExamineSerialized(m, rest);
  }

  lemma {:induction false} PrependTwice(m: Message, ms: seq<Message>, d: Decoded)
    ensures Prepend([m], Prepend(ms, d)) == Prepend([m] + ms, d)
  {
    assert [m] + (ms + d.frames) == [m] + ms + d.frames;
  }

  /** Requests with something behind the last of them, or with a payload in it, are all served. */
  lemma {:induction false} DecodeAllOf(ms: seq<Message>, rest: seq<byte>)
    requires InLimit(ms)
    requires ms != [] && ms[|ms| - 1].payload == [] ==> rest != []
    ensures Decode(Concat(ms) + rest) == Prepend(ms, Decode(rest))
  {
    if ms == [] {
      assert Concat(ms) + rest == rest;
      assert [] + Decode(rest).frames == Decode(rest).frames;
    } else {
      var m, tail := ms[0], ms[1..];
      var x, y, d := Serialize(m), Concat(tail), Decode(rest);
      assert x + y + rest == x + (y + rest);
      assert tail != [] ==> tail[|tail| - 1] == ms[|ms| - 1] && |y| >= HEADER_SIZE;
      DecodeServes(m, y + rest);
      DecodeAllOf(tail, rest);
      PrependTwice(m, tail, d);
      assert [m] + tail == ms;
    }
  }

  /** Pipelined complete requests are all served, except that a final one without payload waits for one more byte. */
  lemma {:induction false} DecodePipelined(ms: seq<Message>)
    requires InLimit(ms)
    ensures var held := if ms != [] && ms[|ms| - 1].payload == [] then 1 else 0;
            Decode(Concat(ms)) == Decoded(ms[..|ms| - held], Concat(ms[|ms| - held..]), false)
  {
    if ms != [] && ms[|ms| - 1].payload == [] {
      var n := |ms| - 1;
      var last := Serialize(ms[n]);
      assert ms == ms[..n] + [ms[n]] && ms[n..] == [ms[n]];
      ConcatOne(ms[..n], ms[n]);
      assert Concat([ms[n]]) == last + Concat([]);
      DecodeAllOf(ms[..n], last);
      assert ms[..n] + [] == ms[..n];
    } else {
      DecodeAllOf(ms, []);
      assert Concat(ms) + [] == Concat(ms) && ms + [] == ms && ms[..|ms|] == ms && ms[|ms|..] == [];
    }
  }

  // ---------- The client's reader ----------

  datatype Received = Received(message: Message, rest: seq<byte>)

  /** One message from the front of a byte stream, if all of it is there and within the limit. */
  function Take(stream: seq<byte>): (r: Option<Received>)
    ensures r.Some? ==> |stream| == HEADER_SIZE + |r.value.message.payload| + |r.value.rest|
  {
    if |stream| < HEADER_SIZE || LengthField(stream) > MAX_PAYLOAD
       || HEADER_SIZE + LengthField(stream) > |stream| then None
    else Some(Received(Head(stream), stream[HEADER_SIZE + LengthField(stream)..]))
  }

  function TakeAll(stream: seq<byte>): seq<Message>
    decreases |stream|
  {
    match Take(stream)
    case None => []
    case Some(r) => [r.message] + TakeAll(r.rest)
  }

  lemma {:induction false} TakeSerialized(m: Message, rest: seq<byte>)
    requires |m.payload| <= 4096
    ensures Take(Serialize(m) + rest) == Some(Received(m, rest))
  {
    HeadOfSerialized(m, rest);
  }

  /** Cutting a stream of messages anywhere yields the messages that lie wholly before the cut. */
  lemma {:induction false} TakeAllOfPrefix(ms: seq<Message>, cut: seq<byte>)
    requires InLimit(ms)
    requires cut <= Concat(ms)
    ensures TakeAll(cut) <= ms
    ensures cut == Concat(ms) ==> TakeAll(cut) == ms
  {
    if ms == [] {
      assert cut == [];
    } else {
      var m, tail := ms[0], ms[1..];
      var size := HEADER_SIZE + |m.payload|;
      if |cut| >= size {
        var rest := cut[size..];
        CutBehind(Serialize(m), Concat(tail), cut);
        TakeSerialized(m, rest);
        TakeAllOfPrefix(tail, rest);
        assert ms == [m] + tail;
      } else {
        TakePartial(m, Concat(tail), cut);
      }
    }
  }

  lemma {:induction false} CutBehind(first: seq<byte>, rest: seq<byte>, cut: seq<byte>)
    requires cut <= first + rest && |cut| >= |first|
    ensures cut == first + cut[|first|..] && cut[|first|..] <= rest
    ensures cut == first + rest <==> cut[|first|..] == rest
  {
    assert (first + rest)[|first|..] == rest;
  }

  lemma {:induction false} TakePartial(m: Message, rest: seq<byte>, cut: seq<byte>)
    requires cut <= Serialize(m) + rest && |cut| < HEADER_SIZE + |m.payload|
    ensures Take(cut) == None
  {
    if |cut| >= HEADER_SIZE {
      HeadOfSerialized(m, rest);
      assert cut[3..7] == (Serialize(m) + rest)[3..7];
    }
  }
}
