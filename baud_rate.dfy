/** Baud-rate divisor arithmetic of the UART2 driver.

    The driver computes the value of the USART baud-rate register (BRR) from
    the peripheral input clock and the requested baud rate with unsigned
    32-bit C arithmetic, rounding the quotient to the nearest integer by
    adding half the divisor before dividing, and returns it as a 16-bit
    value. Both the 32-bit wrap-around of the addition and the narrowing to
    16 bits are written out here, since Dafny integers are unbounded.
 */
module BaudRate {

  /** C `uint32_t`. */
  newtype uint32 = x: int | 0 <= x < 0x1_0000_0000

  /** C `uint16_t`. */
  newtype uint16 = x: int | 0 <= x < 0x1_0000

  const UINT32_MODULUS: int := 0x1_0000_0000
  const UINT16_MODULUS: int := 0x1_0000

  /** `q` is `c / b` rounded to the nearest integer, a tie (a fractional part
      of exactly one half) rounding up: `c - q * b` lies in `[-b/2, b/2)`. */
  ghost predicate RoundsToNearest(c: int, b: int, q: int)
    requires b > 0
  {
    -b <= 2 * (c - q * b) < b
  }

  /** Neither the 32-bit addition `periphClk + baudrate / 2` wraps around nor
      the quotient exceeds the 16 bits of the result: exactly the inputs on
      which the C arithmetic computes the mathematically rounded quotient
      (ComputeUartBdRoundsIffFits). */
  ghost predicate FitsDivisor(periphClk: uint32, baudrate: uint32)
    requires baudrate > 0
  {
    && periphClk as int + baudrate as int / 2 < UINT32_MODULUS
    && (periphClk as int + baudrate as int / 2) / baudrate as int < UINT16_MODULUS
  }

  /** Adding half the divisor before a truncating division rounds to the
      nearest integer. */
  lemma {:induction false} HalfUpDivision(c: int, b: int)
    requires c >= 0 && b > 0
    ensures RoundsToNearest(c, b, (c + b / 2) / b)
  {
    var h, q := b / 2, (c + b / 2) / b;
    var r := (c + h) % b;
    assert c + h == q * b + r && 0 <= r < b;
    assert c - q * b == r - h;
    assert b == 2 * h || b == 2 * h + 1;
  }

  /** The BRR value for a peripheral clock and a baud rate: the sum wraps
      modulo 2^32 as `uint32_t` addition does, the division truncates, and
      the quotient is narrowed to `uint16_t` on return. A zero baud rate is a
      division by zero in the C code, so it is excluded. Wrapping and
      narrowing can only lower the result: it never exceeds the quotient of
      the unwrapped sum. */
  function ComputeUartBd(periphClk: uint32, baudrate: uint32): (r: uint16)
    requires baudrate > 0
    ensures r as int <= (periphClk as int + baudrate as int / 2) / baudrate as int
  {
    var sum := (periphClk as int + (baudrate / 2) as int) % UINT32_MODULUS;
    var quotient := sum / baudrate as int;
    DivMonotone(sum, periphClk as int + baudrate as int / 2, baudrate as int);
    ModAtMost(quotient, UINT16_MODULUS);
    (quotient % UINT16_MODULUS) as uint16
  }

  /** Reducing a non-negative value modulo `m` never increases it. */
  lemma {:induction false} ModAtMost(x: int, m: int)
    requires x >= 0 && m > 0
    ensures x % m <= x
  {}

  /** Truncating division by a positive divisor is monotone in the dividend. */
  lemma {:induction false} DivMonotone(x: int, y: int, b: int)
    requires 0 <= x <= y && b > 0
    ensures x / b <= y / b
  {
    if x / b > y / b {
      MulNonNegative(x / b - y / b - 1, b);
      assert false;
    }
  }

  /** On the inputs where nothing wraps or is cut off, the divisor is the
      quotient rounded to nearest. */
  lemma {:induction false} ComputeUartBdRoundsToNearest(periphClk: uint32, baudrate: uint32)
    requires baudrate > 0 && FitsDivisor(periphClk, baudrate)
    ensures RoundsToNearest(periphClk as int, baudrate as int, ComputeUartBd(periphClk, baudrate) as int)
  {
    var c, b := periphClk as int, baudrate as int;
    var sum := c + b / 2;
    assert sum % UINT32_MODULUS == sum;
    assert (sum / b) % UINT16_MODULUS == sum / b;
    assert ComputeUartBd(periphClk, baudrate) as int == sum / b;
    HalfUpDivision(c, b);
  }

  /** Arithmetic hint for RoundingUnique: distributing one step of a product. */
  lemma {:induction false} MulStep(d: int, b: int)
    ensures d * b == (d - 1) * b + b
  {}

  /** Arithmetic hint for RoundingUnique: a product of non-negatives is
      non-negative. */
  lemma {:induction false} MulNonNegative(a: int, b: int)
    requires a >= 0 && b >= 0
    ensures a * b >= 0
  {}

  /** A quotient rounded to nearest (with ties up) is unique. */
  lemma {:induction false} RoundingUnique(c: int, b: int, q1: int, q2: int)
    requires b > 0
    requires RoundsToNearest(c, b, q1) && RoundsToNearest(c, b, q2)
    ensures q1 == q2
  {
    var d := q1 - q2;
    assert d * b == q1 * b - q2 * b;
    if d > 0 {
      MulStep(d, b);
      MulNonNegative(d - 1, b);
    } else if d < 0 {
      MulStep(-d, b);
      MulNonNegative(-d - 1, b);
    }
  }

  /** Where nothing wraps, the divisor is exactly the rounded quotient: it
      rounds to nearest, and any value that rounds to nearest is it. */
  lemma {:induction false} ComputeUartBdIsRoundedQuotient(periphClk: uint32, baudrate: uint32, q: int)
    requires baudrate > 0 && FitsDivisor(periphClk, baudrate)
    ensures RoundsToNearest(periphClk as int, baudrate as int, q) <==> q == ComputeUartBd(periphClk, baudrate) as int
  {
    var r := ComputeUartBd(periphClk, baudrate) as int;
    ComputeUartBdRoundsToNearest(periphClk, baudrate);
    if RoundsToNearest(periphClk as int, baudrate as int, q) {
      RoundingUnique(periphClk as int, baudrate as int, q, r);
    }
  }

  /** Rounding to nearest by repeated subtraction, a reference definition
      that does not use division: take `b` away from `c` as long as at least
      half of `b` is left, and count the steps. */
  ghost function NearestQuotient(c: int, b: int): (q: int)
    requires b > 0 && 2 * c + b >= 0
    decreases c + b
  {
    if 2 * c < b then 0 else 1 + NearestQuotient(c - b, b)
  }

  /** A dividend at least one divisor larger has a larger quotient. */
  lemma {:induction false} DivStrictlyMonotone(x: int, y: int, b: int)
    requires 0 <= x && b > 0 && x + b <= y
    ensures x / b < y / b
  {
    var p, q := x / b, y / b;
    assert p * b <= x;
    assert y < q * b + b;
    if p >= q {
      MulNonNegative(p - q, b);
      assert false;
    }
  }

  /** A sum that wrapped once modulo 2^32 gives a smaller quotient than the
      unwrapped sum, for any divisor below 2^32. */
  lemma {:induction false} WrappedQuotientBelow(s: int, b: int)
    requires UINT32_MODULUS <= s < 2 * UINT32_MODULUS && 0 < b < UINT32_MODULUS
    ensures (s % UINT32_MODULUS) / b % UINT16_MODULUS < s / b
  {
    assert s % UINT32_MODULUS == s - UINT32_MODULUS;
    DivStrictlyMonotone(s - UINT32_MODULUS, s, b);
    ModAtMost((s - UINT32_MODULUS) / b, UINT16_MODULUS);
  }

  /** When the 32-bit sum wraps, the divisor falls below the quotient of
      the unwrapped sum. */
  lemma {:induction false} WrappedDivisorBelow(periphClk: uint32, baudrate: uint32)
    requires baudrate > 0 && periphClk as int + baudrate as int / 2 >= UINT32_MODULUS
    ensures ComputeUartBd(periphClk, baudrate) as int < (periphClk as int + baudrate as int / 2) / baudrate as int
  {
    var s, b := periphClk as int + baudrate as int / 2, baudrate as int;
    WrappedQuotientBelow(s, b);
  }

  /** Outside FitsDivisor the C arithmetic does not compute the rounded
      quotient: a wrapped sum or a cut-off quotient always lands below it. */
  lemma {:induction false} ComputeUartBdRoundsOnlyIfFits(periphClk: uint32, baudrate: uint32)
    requires baudrate > 0 && !FitsDivisor(periphClk, baudrate)
    ensures !RoundsToNearest(periphClk as int, baudrate as int, ComputeUartBd(periphClk, baudrate) as int)
  {
    var c, b := periphClk as int, baudrate as int;
    var q := (c + b / 2) / b;
    var r := ComputeUartBd(periphClk, baudrate) as int;
    if c + b / 2 >= UINT32_MODULUS {
      WrappedDivisorBelow(periphClk, baudrate);
    }
    assert r < q;
    HalfUpDivision(c, b);
    if RoundsToNearest(c, b, r) {
      RoundingUnique(c, b, r, q);
    }
  }

  /** Both directions together: the divisor is the rounded quotient if and
      only if the inputs lie within FitsDivisor. */
  lemma {:induction false} ComputeUartBdRoundsIffFits(periphClk: uint32, baudrate: uint32)
    requires baudrate > 0
    ensures RoundsToNearest(periphClk as int, baudrate as int, ComputeUartBd(periphClk, baudrate) as int)
            <==> FitsDivisor(periphClk, baudrate)
  {
    if FitsDivisor(periphClk, baudrate) {
      ComputeUartBdRoundsToNearest(periphClk, baudrate);
    } else {
      ComputeUartBdRoundsOnlyIfFits(periphClk, baudrate);
    }
  }

  /** The repeated-subtraction count is `c / b` rounded to nearest. */
  lemma {:induction false} NearestQuotientRounds(c: int, b: int)
    requires b > 0 && 2 * c + b >= 0
    ensures RoundsToNearest(c, b, NearestQuotient(c, b))
  {
    if 2 * c >= b {
      var q := NearestQuotient(c - b, b);
      NearestQuotientRounds(c - b, b);
      assert (q + 1) * b == q * b + b;
    }
  }

  /** Where nothing wraps, the C arithmetic agrees with the reference
      definition of rounding to nearest. */
  lemma {:induction false} ComputeUartBdIsNearestQuotient(periphClk: uint32, baudrate: uint32)
    requires baudrate > 0 && FitsDivisor(periphClk, baudrate)
    ensures ComputeUartBd(periphClk, baudrate) as int == NearestQuotient(periphClk as int, baudrate as int)
  {
    var c, b := periphClk as int, baudrate as int;
    ComputeUartBdRoundsToNearest(periphClk, baudrate);
    NearestQuotientRounds(c, b);
    RoundingUnique(c, b, ComputeUartBd(periphClk, baudrate) as int, NearestQuotient(c, b));
  }

  /** The driver's configuration, a 16 MHz APB1 clock and 115200 baud, gives
      BRR = 139 (16000000 / 115200 is about 138.9). */
  lemma DriverDivisor()
    ensures ComputeUartBd(16000000, 115200) == 139
    ensures FitsDivisor(16000000, 115200)
  {}

  /** 1000000 / 300000 is about 3.33, which rounds down to 3. */
  lemma RoundsDown()
    ensures ComputeUartBd(1000000, 300000) == 3
  {}

  /** 1000000 / 400000 is exactly 2.5, a tie, which rounds up to 3. */
  lemma TieRoundsUp()
    ensures ComputeUartBd(1000000, 400000) == 3
  {}

  /** No bounds check: a quotient above 16 bits is cut to its low 16 bits
      (16000000 / 100 = 160000 = 0x27100 gives 0x7100). */
  lemma QuotientTruncatedTo16Bits()
    ensures !FitsDivisor(16000000, 100)
    ensures ComputeUartBd(16000000, 100) == 0x7100
  {}

  /** No bounds check: when `periphClk + baudrate / 2` overflows 32 bits the
      sum wraps, and a clock of 2^32 - 1 at 2^20 baud gives 0 instead of the
      rounded quotient 4096. */
  lemma SumWrapsAround()
    ensures !FitsDivisor(0xFFFF_FFFF, 0x10_0000)
    ensures ComputeUartBd(0xFFFF_FFFF, 0x10_0000) == 0
  {
    assert (0xFFFF_FFFF + 0x8_0000) % UINT32_MODULUS == 0x7_FFFF;
  }
}
