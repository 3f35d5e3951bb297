/** Types and compile-time constants shared by the Files applet model. */
module Common {

  /** The conventional optional value. */
  datatype Option<+T> = None | Some(value: T)

  /** An 8-bit unsigned value (`uint8_t`); file contents are sequences of these. */
  type U8 = x: int | 0 <= x < 0x100

  /** A 16-bit unsigned value (`uint16_t`). */
  type U16 = x: int | 0 <= x < 0x1_0000

  /** C's conversion of an `int` to `uint16_t`: the one 16-bit value congruent to `x` modulo 2^16,
      so values in range are kept and others wrap. */
  function ToU16(x: int): (r: U16)
    ensures (x - r) % 0x1_0000 == 0
    ensures 0 <= x < 0x1_0000 ==> r == x
    ensures -0x1_0000 <= x < 0 ==> r == x + 0x1_0000
  {
    x % 0x1_0000
  }

  /** The applet's compile-time constants (`LV_APP_FILES_PAGE_SIZE`, `LV_APP_FILES_CHUNK_MAX_SIZE`,
      `LV_APP_FILES_CHUNK_DEF_SIZE`, `LV_APP_FILES_CHUNK_DEF_TIME`, `LV_APP_FILES_PATH_MAX_LEN`,
      `LV_APP_FILES_FN_MAX_LEN`). Their values live in a configuration header, so the model is
      stated for every configuration that satisfies `Valid`. */
  datatype Config = Config(
    pageSize: nat,
    chunkMaxSize: nat,
    chunkDefSize: nat,
    chunkDefTime: nat,
    pathMaxLen: nat,
    fnMaxLen: nat)
  {
    /** A page holds at least one entry; the default chunk fits the read buffer and both
        defaults fit the `uint16_t` fields they are stored in. */
    predicate Valid() {
      && pageSize > 0
      && 0 < chunkDefSize <= chunkMaxSize < 0x1_0000
      && chunkDefTime < 0x1_0000
    }
  }

  /** The notices the applet posts (their text is not modelled). */
  datatype Notice =
    | CannotReadPath   // "Can not read the path in Files"
    | CannotSend       // "Can not send the file in Files"
    | Sending          // "Sending <name>"
    | FileSent         // "File sent"
    | SendBusy         // "File sending in progress"
    | Deleted          // "<name> deleted"
    | CannotDelete     // "Can not delete <name>"

  /** A positive multiple of `p` is at least `p`. */
  lemma MulAtLeast(a: int, p: int)
    requires a >= 1 && p > 0
    ensures a * p >= p
  {
    assert a * p == (a - 1) * p + p;
  }

  /** Euclidean division is determined by quotient and remainder. */
  lemma DivModOf(x: int, p: int, q: int, r: int)
    requires p > 0 && 0 <= r < p && x == q * p + r
    ensures x / p == q && x % p == r
  {
    var q', r' := x / p, x % p;
    assert x == q' * p + r';
    assert (q - q') * p == r' - r;
    if q > q' {
      MulAtLeast(q - q', p);
      assert false;
    } else if q < q' {
      MulAtLeast(q' - q, p);
      assert false;
    }
  }

  /** A value below the divisor has quotient 0. */
  lemma DivSmall(x: int, p: int)
    requires 0 <= x < p
    ensures x / p == 0
  {
    DivModOf(x, p, 0, x);
  }

  /** Removing one divisor's worth lowers the quotient by one. */
  lemma DivLess(x: int, p: int)
    requires p > 0 && x >= p
    ensures (x - p) / p == x / p - 1
  {
    DivModOf(x - p, p, x / p - 1, x % p);
  }
}
