/** The memory-mapped register blocks the UART2 driver touches, simulated as
    objects with one 32-bit field per register (the vendor's RCC_TypeDef,
    GPIO_TypeDef and USART_TypeDef), and the layout of the GPIO per-pin
    fields. Only the registers the driver reads or writes are present.
 */
module Registers {

  /** Reset and clock control: the two peripheral clock-enable registers. */
  class Rcc {
    var ahb1enr: bv32
    var apb1enr: bv32

    /** A block holding arbitrary prior contents. */
    constructor (ahb1enr: bv32, apb1enr: bv32)
      ensures this.ahb1enr == ahb1enr && this.apb1enr == apb1enr
    {
      this.ahb1enr := ahb1enr;
      this.apb1enr := apb1enr;
    }
  }

  /** A GPIO port: the mode register (two bits per pin) and the two
      alternate-function registers AFR[0] (pins 0-7) and AFR[1] (pins 8-15),
      four bits per pin. */
  class Gpio {
    var moder: bv32
    const afr: array<bv32>

    /** Two AFR registers, AFR[0] and AFR[1]. */
    ghost predicate Valid()
    {
      afr.Length == 2
    }

    /** A block holding arbitrary prior contents. */
    constructor (moder: bv32, afrl: bv32, afrh: bv32)
      ensures Valid() && fresh(afr)
      ensures this.moder == moder && afr[0] == afrl && afr[1] == afrh
    {
      this.moder := moder;
      afr := new bv32[2] [afrl, afrh];
    }
  }

  /** A USART: control register 1, baud-rate, status and data registers. */
  class Usart {
    var cr1: bv32
    var brr: bv32
    var sr: bv32
    var dr: bv32

    /** A block holding arbitrary prior contents. */
    constructor (cr1: bv32, brr: bv32, sr: bv32, dr: bv32)
      ensures this.cr1 == cr1 && this.brr == brr && this.sr == sr && this.dr == dr
    {
      this.cr1, this.brr, this.sr, this.dr := cr1, brr, sr, dr;
    }
  }

  /** A GPIO pin number, 0 to 15. It is a bit-vector so that the field
      offsets below are bit-vector shifts. */
  type Pin = p: bv32 | p < 16

  /** MODER encoding of alternate-function mode. */
  const MODE_AF: bv32 := 0x2

  /** The bits of MODER that hold the mode of `pin`. */
  function ModeMask(pin: Pin): (mask: bv32)
  {
    0x3 << (2 * pin)
  }

  /** The 2-bit mode of `pin`: the bits of MODER under the pin's mask,
      shifted down to bit 0. */
  function ModeField(moder: bv32, pin: Pin): (m: bv32)
    ensures m <= 0x3
    ensures m << (2 * pin) == moder & ModeMask(pin)
  {
    (moder >> (2 * pin)) & 0x3
  }

  /** The bits of AFR[0] that hold the alternate-function code of `pin`
      (pins 0 to 7; pins 8 to 15 are in AFR[1]). */
  function AfMask(pin: Pin): (mask: bv32)
    requires pin < 8
  {
    0xF << (4 * pin)
  }

  /** The 4-bit alternate-function code of `pin` in AFR[0]: the bits under
      the pin's mask, shifted down to bit 0. */
  function AfField(afrl: bv32, pin: Pin): (m: bv32)
    requires pin < 8
    ensures m <= 0xF
    ensures m << (4 * pin) == afrl & AfMask(pin)
  {
    (afrl >> (4 * pin)) & 0xF
  }

  /** `x` and `y` agree on every bit outside `mask`. */
  predicate SameOutside(x: bv32, y: bv32, mask: bv32)
  {
    x & !mask == y & !mask
  }

  /** A pin's mode field and the bits outside it determine MODER: an
      operation that fixes the field and preserves the rest has a single
      possible end state, whatever the field held before. */
  lemma {:induction false} ModeFieldDetermines(x: bv32, y: bv32, pin: Pin)
    requires SameOutside(x, y, ModeMask(pin)) && ModeField(x, pin) == ModeField(y, pin)
    ensures x == y
  {}

  /** The same for a pin's alternate-function code in AFR[0]. */
  lemma {:induction false} AfFieldDetermines(x: bv32, y: bv32, pin: Pin)
    requires pin < 8
    requires SameOutside(x, y, AfMask(pin)) && AfField(x, pin) == AfField(y, pin)
    ensures x == y
  {}

  /** Mode fields of different pins do not overlap, so fixing one pin's
      mode leaves every other pin's mode as it was. */
  lemma {:induction false} OtherModeFieldsUnchanged(x: bv32, y: bv32, pin: Pin, other: Pin)
    requires pin != other && SameOutside(x, y, ModeMask(pin))
    ensures ModeField(x, other) == ModeField(y, other)
  {}

  /** The same for the alternate-function codes in AFR[0]. */
  lemma {:induction false} OtherAfFieldsUnchanged(x: bv32, y: bv32, pin: Pin, other: Pin)
    requires pin < 8 && other < 8 && pin != other
    requires SameOutside(x, y, AfMask(pin))
    ensures AfField(x, other) == AfField(y, other)
  {}
}
