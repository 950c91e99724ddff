/** The UART2 driver: bring-up of USART2 on pins PA2 (TX) and PA3 (RX) of
    GPIOA, and blocking single-byte transmit and receive, as operations on a
    simulated register block (the RCC, GPIOA and USART2 objects passed in
    place of the fixed memory-mapped addresses).

    The transfer routines spin until a status flag is set; the model takes
    the flag as already set (a precondition) and models the access that
    follows the loop.
 */
module Uart {
  import opened BaudRate
  import opened Registers

  /** RCC AHB1ENR: GPIOA clock enable. */
  const GPIOAEN: bv32 := 1 << 0
  /** RCC APB1ENR: USART2 clock enable. */
  const UART2EN: bv32 := 1 << 17

  /** USART CR1: receiver enable, transmitter enable, USART enable. */
  const CR1_RE: bv32 := 1 << 2
  const CR1_TE: bv32 := 1 << 3
  const CR1_UE: bv32 := 1 << 13

  /** USART SR: read data register not empty, transmit data register empty. */
  const SR_RXNE: bv32 := 1 << 5
  const SR_TXE: bv32 := 1 << 7

  const SYS_FREQ: uint32 := 16000000
  const APB1_CLK: uint32 := SYS_FREQ
  const UART_BAUDRATE: uint32 := 115200

  /** USART2_TX and USART2_RX pins of GPIOA, and their alternate-function
      code (AF7). */
  const PA2: Pin := 2
  const PA3: Pin := 3
  const AF7: bv32 := 0x7

  /** `pin` is in alternate-function mode with function AF7 selected, which
      connects it to USART2. */
  predicate RoutedToUsart2(moder: bv32, afrl: bv32, pin: Pin)
    requires pin < 8
  {
    ModeField(moder, pin) == MODE_AF && AfField(afrl, pin) == AF7
  }

  /** The data-register value for the C `int` argument `ch` (taken as its
      32-bit two's-complement pattern): its low byte, with every higher bit
      cleared. */
  function TxData(ch: bv32): (r: bv32)
    ensures r <= 0xFF
    ensures r & 0xFF == ch & 0xFF
  {
    ch & 0xFF
  }

  /** Only the low byte of the argument reaches the data register: two
      arguments are written alike exactly when their low bytes agree. */
  lemma TxDataDependsOnlyOnLowByte(a: bv32, b: bv32)
    ensures TxData(a) == TxData(b) <==> a & 0xFF == b & 0xFF
  {}

  /** A byte value is written as it is. */
  lemma TxDataOfByte(ch: bv32)
    requires ch <= 0xFF
    ensures TxData(ch) == ch
  {}

  /** Writing 0x1FF puts the same value in DR as writing 0xFF. */
  lemma TxDataDropsNinthBit()
    ensures TxData(0x1FF) == TxData(0xFF) == 0xFF
  {}

  /** BRR := the divisor for `periphClk` and `baudrate`, zero-extended from
      16 bits. */
  method UartSetBaudrate(usart: Usart, periphClk: uint32, baudrate: uint32)
    requires baudrate > 0
    modifies usart
    ensures usart.brr == ComputeUartBd(periphClk, baudrate) as bv32
    ensures usart.cr1 == old(usart.cr1) && usart.sr == old(usart.sr) && usart.dr == old(usart.dr)
  {
    usart.brr := ComputeUartBd(periphClk, baudrate) as bv32;
  }

  /** PA2 becomes USART2_TX: its MODER field is cleared at bit 4 and set at
      bit 5, so it reads `10` (alternate function) whatever it held; its
      AFR[0] nibble gets bits 8-10 set and bit 11 cleared, so it reads `0111`
      (AF7). No other bit of MODER or AFR[0], and nothing of AFR[1],
      changes. */
  method ConfigurePa2(gpioa: Gpio)
    requires gpioa.Valid()
    modifies gpioa, gpioa.afr
    ensures gpioa.Valid()
    ensures RoutedToUsart2(gpioa.moder, gpioa.afr[0], PA2)
    ensures SameOutside(gpioa.moder, old(gpioa.moder), ModeMask(PA2))
    ensures SameOutside(gpioa.afr[0], old(gpioa.afr[0]), AfMask(PA2))
    ensures gpioa.afr[1] == old(gpioa.afr[1])
  {
    gpioa.moder := gpioa.moder & !(1 << 4);
    gpioa.moder := gpioa.moder | (1 << 5);

    gpioa.afr[0] := gpioa.afr[0] | (1 << 8);
    gpioa.afr[0] := gpioa.afr[0] | (1 << 9);
    gpioa.afr[0] := gpioa.afr[0] | (1 << 10);
    gpioa.afr[0] := gpioa.afr[0] & !(1 << 11);
  }

  /** PA3 becomes USART2_RX, by the same steps on MODER bits 6-7 and AFR[0]
      bits 12-15. */
  method ConfigurePa3(gpioa: Gpio)
    requires gpioa.Valid()
    modifies gpioa, gpioa.afr
    ensures gpioa.Valid()
    ensures RoutedToUsart2(gpioa.moder, gpioa.afr[0], PA3)
    ensures SameOutside(gpioa.moder, old(gpioa.moder), ModeMask(PA3))
    ensures SameOutside(gpioa.afr[0], old(gpioa.afr[0]), AfMask(PA3))
    ensures gpioa.afr[1] == old(gpioa.afr[1])
  {
    gpioa.moder := gpioa.moder & !(1 << 6);
    gpioa.moder := gpioa.moder | (1 << 7);

    gpioa.afr[0] := gpioa.afr[0] | (1 << 12);
    gpioa.afr[0] := gpioa.afr[0] | (1 << 13);
    gpioa.afr[0] := gpioa.afr[0] | (1 << 14);
    gpioa.afr[0] := gpioa.afr[0] & !(1 << 15);
  }

  /** The BRR value the driver programs, zero-extended to the 32-bit
      register. */
  lemma DriverBrr()
    ensures ComputeUartBd(APB1_CLK, UART_BAUDRATE) as bv32 == 139
  {
    DriverDivisor();
  }

  /** Bring-up for transmit and receive: clocks on, PA2 and PA3 routed to
      USART2 whatever their fields held, BRR for 115200 baud at 16 MHz, and
      CR1 set to exactly TE | RE | UE. Every other bit of the registers
      touched keeps its value. */
  method Uart2RxTxInit(rcc: Rcc, gpioa: Gpio, usart2: Usart)
    requires gpioa.Valid()
    modifies rcc, gpioa, gpioa.afr, usart2
    ensures gpioa.Valid()
    ensures rcc.ahb1enr & GPIOAEN == GPIOAEN && SameOutside(rcc.ahb1enr, old(rcc.ahb1enr), GPIOAEN)
    ensures rcc.apb1enr & UART2EN == UART2EN && SameOutside(rcc.apb1enr, old(rcc.apb1enr), UART2EN)
    ensures RoutedToUsart2(gpioa.moder, gpioa.afr[0], PA2)
    ensures RoutedToUsart2(gpioa.moder, gpioa.afr[0], PA3)
    ensures SameOutside(gpioa.moder, old(gpioa.moder), ModeMask(PA2) | ModeMask(PA3))
    ensures SameOutside(gpioa.afr[0], old(gpioa.afr[0]), AfMask(PA2) | AfMask(PA3))
    ensures gpioa.afr[1] == old(gpioa.afr[1])
    ensures usart2.brr == ComputeUartBd(APB1_CLK, UART_BAUDRATE) as bv32 == 139
    ensures usart2.cr1 == CR1_TE | CR1_RE | CR1_UE
    ensures usart2.sr == old(usart2.sr) && usart2.dr == old(usart2.dr)
  {
    // GPIO pins
    rcc.ahb1enr := rcc.ahb1enr | GPIOAEN;
    ConfigurePa2(gpioa);
    ConfigurePa3(gpioa);

    // USART module
    rcc.apb1enr := rcc.apb1enr | UART2EN;
    UartSetBaudrate(usart2, APB1_CLK, UART_BAUDRATE);
    DriverBrr();
    usart2.cr1 := CR1_TE | CR1_RE;
    usart2.cr1 := usart2.cr1 | CR1_UE;
  }

  /** Bring-up for transmit only: as Uart2RxTxInit, except that PA3 is left
      as it was and CR1 is set to exactly TE | UE, so the receiver stays
      disabled. */
  method Uart2TxInit(rcc: Rcc, gpioa: Gpio, usart2: Usart)
    requires gpioa.Valid()
    modifies rcc, gpioa, gpioa.afr, usart2
    ensures gpioa.Valid()
    ensures rcc.ahb1enr & GPIOAEN == GPIOAEN && SameOutside(rcc.ahb1enr, old(rcc.ahb1enr), GPIOAEN)
    ensures rcc.apb1enr & UART2EN == UART2EN && SameOutside(rcc.apb1enr, old(rcc.apb1enr), UART2EN)
    ensures RoutedToUsart2(gpioa.moder, gpioa.afr[0], PA2)
    ensures SameOutside(gpioa.moder, old(gpioa.moder), ModeMask(PA2))
    ensures SameOutside(gpioa.afr[0], old(gpioa.afr[0]), AfMask(PA2))
    ensures ModeField(gpioa.moder, PA3) == ModeField(old(gpioa.moder), PA3)
    ensures AfField(gpioa.afr[0], PA3) == AfField(old(gpioa.afr[0]), PA3)
    ensures gpioa.afr[1] == old(gpioa.afr[1])
    ensures usart2.brr == ComputeUartBd(APB1_CLK, UART_BAUDRATE) as bv32 == 139
    ensures usart2.cr1 == CR1_TE | CR1_UE && usart2.cr1 & CR1_RE == 0
    ensures usart2.sr == old(usart2.sr) && usart2.dr == old(usart2.dr)
  {
    // GPIO pin
    rcc.ahb1enr := rcc.ahb1enr | GPIOAEN;
    ConfigurePa2(gpioa);

    // USART module
    rcc.apb1enr := rcc.apb1enr | UART2EN;
    UartSetBaudrate(usart2, APB1_CLK, UART_BAUDRATE);
    DriverBrr();
    usart2.cr1 := CR1_TE;
    usart2.cr1 := usart2.cr1 | CR1_UE;
  }

  /** Receive one byte, once RXNE is set: the `char` result is the low byte
      of DR. Reading changes no register of the model. */
  method Uart2Read(usart: Usart) returns (c: bv8)
    requires usart.sr & SR_RXNE != 0
    ensures c as bv32 == usart.dr & 0xFF
  {
    c := (usart.dr & 0xFF) as bv8;
  }

  /** Transmit one byte, once TXE is set: DR receives the low byte of `ch`;
      no other register changes. */
  method Uart2Write(usart: Usart, ch: bv32)
    requires usart.sr & SR_TXE != 0
    modifies usart
    ensures usart.dr == TxData(ch)
    ensures usart.cr1 == old(usart.cr1) && usart.brr == old(usart.brr) && usart.sr == old(usart.sr)
  {
    usart.dr := ch & 0xFF;
  }

  /** The character-output hook used by formatted printing: transmits `ch`
      exactly as Uart2Write does and returns it unchanged. */
  method IoPutchar(usart: Usart, ch: bv32) returns (r: bv32)
    requires usart.sr & SR_TXE != 0
    modifies usart
    ensures r == ch
    ensures usart.dr == TxData(ch)
    ensures usart.cr1 == old(usart.cr1) && usart.brr == old(usart.brr) && usart.sr == old(usart.sr)
  {
    Uart2Write(usart, ch);
    r := ch;
  }
}
