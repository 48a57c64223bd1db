/** Bytes, text and 32-bit integers as the server and its clients put them on the wire. */
module Bytes {
  type byte = x: int | 0 <= x < 256

  /** A `std::string`: any bytes, NUL included. */
  type Text = seq<byte>

  const U32_LIMIT := 0x1_0000_0000

  type u32 = x: int | 0 <= x < U32_LIMIT

  datatype Option<+T> = None | Some(value: T)

  /** The sum of two `uint32_t` values. */
  function Add32(a: u32, b: u32): u32 {
    if a + b < U32_LIMIT then a + b else a + b - U32_LIMIT
  }

  // ---------- Byte order ----------

  function FromBigEndian(b: seq<byte>): u32
    requires |b| == 4
  {
    b[0] as int * 0x100_0000 + b[1] as int * 0x1_0000 + b[2] as int * 0x100 + b[3]
  }

  /** The bytes of a `uint32_t` in memory on a little-endian host. */
  function HostBytes(n: u32): (r: seq<byte>)
    ensures |r| == 4
  {
    [n % 256, n / 0x100 % 256, n / 0x1_0000 % 256, n / 0x100_0000]
  }

  function Reversed(b: seq<byte>): (r: seq<byte>)
    ensures |r| == |b|
    ensures forall k | 0 <= k < |b| :: r[k] == b[|b| - 1 - k]
  {
    seq(|b|, k requires 0 <= k < |b| => b[|b| - 1 - k])
  }

  lemma {:induction false} HostBytesReverse(n: u32)
    ensures FromBigEndian(Reversed(HostBytes(n))) == n
  {
    assert n == n / 0x100 * 0x100 + n % 256;
    assert n / 0x100 == n / 0x1_0000 * 0x100 + n / 0x100 % 256;
    assert n / 0x1_0000 == n / 0x100_0000 * 0x100 + n / 0x1_0000 % 256;
  }

  lemma {:induction false} BigEndianUnique(a: seq<byte>, b: seq<byte>)
    requires |a| == |b| == 4
    requires FromBigEndian(a) == FromBigEndian(b)
    ensures a == b
  {
    assert a[0] == b[0];
    assert a[1] == b[1];
    assert a[2] == b[2];
  }

  /** The four bytes that carry a number in network order. */
  function BigEndian(n: u32): (r: seq<byte>)
    ensures |r| == 4 && FromBigEndian(r) == n
  {
    HostBytesReverse(n);
    forall a: seq<byte>, b: seq<byte> | |a| == |b| == 4 && FromBigEndian(a) == n && FromBigEndian(b) == n
      ensures a == b
    {
      BigEndianUnique(a, b);
    }
    var r: seq<byte> :| |r| == 4 && FromBigEndian(r) == n;
    r
  }

  /** `htonl` on a little-endian host: the bytes in memory, reversed. */
  lemma {:induction false} NetworkOrder(n: u32)
    ensures Reversed(HostBytes(n)) == BigEndian(n)
  {
    HostBytesReverse(n);
    BigEndianUnique(Reversed(HostBytes(n)), BigEndian(n));
  }

  // ---------- Text ----------

  /** `std::tolower` in the C locale, which is also what SQLite's LOWER does to a byte. */
  function LowerByte(c: byte): byte {
    if 65 <= c <= 90 then c + 32 else c
  }

  function Lower(s: Text): (r: Text)
    ensures |r| == |s|
    ensures forall k | 0 <= k < |s| :: r[k] == LowerByte(s[k])
  {
    seq(|s|, k requires 0 <= k < |s| => LowerByte(s[k]))
  }

  /** The same byte, or the two cases of one ASCII letter. */
  predicate SameLetter(a: byte, b: byte) {
    a == b || (65 <= a <= 90 && b == a + 32) || (65 <= b <= 90 && a == b + 32)
  }

  predicate EqualUpToCase(s: Text, t: Text) {
    |s| == |t| && forall k | 0 <= k < |s| :: SameLetter(s[k], t[k])
  }

  /** Texts with one lower-case form are those that are equal up to letter case. */
  lemma {:induction false} LowerExact(s: Text, t: Text)
    ensures Lower(s) == Lower(t) <==> EqualUpToCase(s, t)
  {
    if |s| == |t| {
      assert forall k | 0 <= k < |s| :: Lower(s)[k] == Lower(t)[k] <==> SameLetter(s[k], t[k]);
    }
  }

  /** The part of a string that a NUL-terminated read sees. */
  function CText(s: Text): (r: Text)
    ensures r <= s && 0 !in r
    ensures r == s || s[|r|] == 0
  {
    if s == [] || s[0] == 0 then [] else [s[0]] + CText(s[1..])
  }

  /** The cut is the only NUL-free prefix that ends the text or stops before a NUL. */
  lemma {:induction false} CTextUnique(s: Text, r: Text)
    requires r <= s && 0 !in r
    requires r == s || s[|r|] == 0
    ensures r == CText(s)
  {
    var c := CText(s);
    assert forall k | 0 <= k < |c| :: c[k] in c && c[k] == s[k];
    assert forall k | 0 <= k < |r| :: r[k] in r && r[k] == s[k];
  }

  /** Cutting at the first NUL and lower-casing commute. */
  lemma {:induction false} LowerCut(s: Text)
    ensures Lower(CText(s)) == CText(Lower(s))
  {
    CTextUnique(Lower(s), Lower(CText(s)));
  }

  /**
   * The lower-cased key of a name finds just the names that are equal, up to letter
   * case, to what an insert stores for it.
   */
  lemma {:induction false} KeyExact(stored: Text, name: Text)
    ensures Lower(stored) == CText(Lower(name)) <==> EqualUpToCase(stored, CText(name))
  {
    LowerCut(name);
    LowerExact(stored, CText(name));
  }
}
