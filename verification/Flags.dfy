/** Connection flags: the 8-bit masks of the source and the five facts they stand for. */
module Flags {
  const NONE: bv8 := 0
  const WANT_READ: bv8 := 1
  const WANT_WRITE: bv8 := 2
  const WANT_CLOSE: bv8 := 4
  const IS_ACTIVE: bv8 := 8
  const IS_AUTH: bv8 := 16

  predicate HasFlag(mask: bv8, flag: bv8) {
    mask & flag != 0
  }

  datatype Status = Status(wantRead: bool, wantWrite: bool, wantClose: bool, active: bool, auth: bool)

  const IDLE := Status(false, false, false, false, false)

  function Meaning(mask: bv8): Status {
    Status(HasFlag(mask, WANT_READ), HasFlag(mask, WANT_WRITE), HasFlag(mask, WANT_CLOSE),
           HasFlag(mask, IS_ACTIVE), HasFlag(mask, IS_AUTH))
  }

  /** Only the five declared bits are ever set. */
  predicate Declared(mask: bv8) {
    mask & 0xE0 == 0
  }

  lemma {:induction false} MeaningInjective(a: bv8, b: bv8)
    requires Declared(a) && Declared(b) && Meaning(a) == Meaning(b)
    ensures a == b
  {
  }

  /** What the assignments of the server do to a mask. */
  lemma {:induction false} Updates(mask: bv8)
    requires Declared(mask)
    ensures Declared(NONE) && Meaning(NONE) == IDLE
    ensures Declared(IS_ACTIVE | WANT_READ) && Meaning(IS_ACTIVE | WANT_READ) == IDLE.(active := true, wantRead := true)
    ensures var m := (mask | WANT_READ) & !WANT_WRITE;
            Declared(m) && Meaning(m) == Meaning(mask).(wantRead := true, wantWrite := false)
    ensures var m := (mask & !WANT_READ) | WANT_WRITE;
            Declared(m) && Meaning(m) == Meaning(mask).(wantRead := false, wantWrite := true)
    ensures var m := mask | WANT_CLOSE; Declared(m) && Meaning(m) == Meaning(mask).(wantClose := true)
    ensures var m := mask | IS_AUTH; Declared(m) && Meaning(m) == Meaning(mask).(auth := true)
  {
  }

  /** The masks of a slot that is out of use, waits to read or waits to write; the last two also when authenticated. */
  lemma {:induction false} RestingMasks(mask: bv8)
    requires Declared(mask)
    requires var s := Meaning(mask);
             s == IDLE || (s.active && !s.wantClose && s.wantRead != s.wantWrite)
    ensures || mask == NONE
            || mask == IS_ACTIVE | WANT_READ || mask == IS_ACTIVE | WANT_WRITE
            || mask == IS_ACTIVE | IS_AUTH | WANT_READ || mask == IS_ACTIVE | IS_AUTH | WANT_WRITE
  {
  }
}
