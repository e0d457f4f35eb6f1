/** Machine words and the wrapping millisecond clock.

    The firmware stores `uint32_t` millisecond stamps and compares them with
    unsigned subtraction. The tables of this project store the true time as a
    `nat`; every comparison the firmware makes reads it through `Ticks` or
    `Elapsed`, so nothing above the low 32 bits ever reaches a decision. */
module Words {
  const WORD16: nat := 0x1_0000
  const WORD32: nat := 0x1_0000_0000

  type byte = x: int | 0 <= x < 0x100
  type u16 = x: int | 0 <= x < 0x1_0000
  type u32 = x: int | 0 <= x < 0x1_0000_0000
  type u64 = x: int | 0 <= x < 0x1_0000_0000_0000_0000

  datatype Option<+T> = None | Some(value: T)

  /** What the firmware reads off the clock at true time `t`. */
  function Ticks(t: nat): u32 {
    t % WORD32
  }

  /** `(uint32_t)(now - then)` on two clock readings. */
  function Elapsed(now: nat, then_: nat): u32 {
    (Ticks(now) - Ticks(then_)) % WORD32
  }

  function Min(a: int, b: int): int {
    if a < b then a else b
  }

  function Max(a: int, b: int): int {
    if a < b then b else a
  }

  /** The unsigned difference is the true difference modulo 2^32. */
  lemma ElapsedIsModular(now: nat, then_: nat)
    ensures Elapsed(now, then_) == (now - then_) % WORD32
  {
    var a, b := now / WORD32, then_ / WORD32;
    assert now == a * WORD32 + Ticks(now) && then_ == b * WORD32 + Ticks(then_);
    assert now - then_ == (a - b) * WORD32 + (Ticks(now) - Ticks(then_));
    ModOfShift(a - b, Ticks(now) - Ticks(then_));
  }

  lemma ModOfShift(k: int, x: int)
    ensures (k * WORD32 + x) % WORD32 == x % WORD32
  {
    var q := x / WORD32;
    assert x == q * WORD32 + x % WORD32;
    assert k * WORD32 + x == (k + q) * WORD32 + x % WORD32;
  }

  /** Within one wrap of the clock the unsigned difference is the age. */
  lemma ElapsedIsTrueAge(now: nat, then_: nat)
    requires then_ <= now < then_ + WORD32
    ensures Elapsed(now, then_) == now - then_
  {
    ElapsedIsModular(now, then_);
  }

  /** However old the stamp is, the unsigned difference never overstates it. */
  lemma ElapsedNeverExceedsAge(now: nat, then_: nat)
    requires then_ <= now
    ensures Elapsed(now, then_) <= now - then_
  {
    ElapsedIsModular(now, then_);
  }

  /** A reading taken before the stamp makes the stamp look almost 2^32 old. */
  lemma ElapsedOfStaleReading(now: nat, then_: nat)
    requires now < then_ < now + WORD32
    ensures Elapsed(now, then_) == WORD32 - (then_ - now)
  {
    ElapsedIsModular(now, then_);
    ModOfShift(-1, WORD32 - (then_ - now));
  }

  /** Between two wraps of the clock the order of readings is the order of times. */
  lemma TicksKeepOrder(a: nat, b: nat)
    requires a / WORD32 == b / WORD32
    ensures Ticks(a) <= Ticks(b) <==> a <= b
  {
    assert a == a / WORD32 * WORD32 + Ticks(a) && b == b / WORD32 * WORD32 + Ticks(b);
  }

  /** The unsigned difference puts `stamp` on the wrong side of a window of `limit`
      milliseconds: a stamp older than a wrap looks young again, or a stamp newer than
      the reading looks old. */
  predicate Misread(reading: nat, stamp: nat, limit: nat) {
    if stamp <= reading then reading - stamp >= WORD32 && (reading - stamp) % WORD32 <= limit
    else (reading - stamp) % WORD32 > limit
  }

  /** A window test on the unsigned difference is right exactly when the stamp is not
      misread. A stamp taken after the clock was read belongs to the window. */
  lemma WindowIsRightIff(reading: nat, stamp: nat, limit: nat)
    requires limit < WORD32
    ensures (Elapsed(reading, stamp) <= limit <==> reading - stamp <= limit) <==> !Misread(reading, stamp, limit)
  {
    ElapsedIsModular(reading, stamp);
  }

  /** In a run without misreadings of more than a wrap: misread means newer. */
  lemma MisreadWithinWrap(reading: nat, stamp: nat, limit: nat)
    requires reading < stamp + WORD32 && stamp <= reading + (WORD32 - 1 - limit) && limit < WORD32
    ensures Misread(reading, stamp, limit) <==> reading < stamp
  {
    if reading < stamp {
      assert (reading - stamp) % WORD32 == reading - stamp + WORD32;
    }
  }
}
