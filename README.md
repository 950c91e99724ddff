# UART2 driver model

A Dafny model of a bare-metal USART2 driver for an STM32F4-class
microcontroller (`Src/uart.c`). The driver

- enables the GPIOA and USART2 clocks in RCC,
- routes PA2 (TX) and, for the full variant, PA3 (RX) to USART2 by putting
  them in alternate-function mode with function AF7,
- programs the baud-rate register from a 16 MHz clock and 115200 baud,
- sets CR1 to transmit (and receive) enable plus USART enable,
- and moves single bytes through the data register once the status flags
  allow it.

The project has three modules:

- `BaudRate` (`baud_rate.dfy`) holds the pure divisor arithmetic. It models
  C `uint32_t` and `uint16_t` as newtypes and writes out the 32-bit
  wrap-around of the sum and the narrowing of the quotient to 16 bits. It
  proves that, wherever nothing wraps, the result is the quotient rounded to
  nearest (ties up). It also proves that this rounded quotient is unique and
  that it equals a reference definition by repeated subtraction.
- `Registers` (`registers.dfy`) holds the simulated register blocks. There is
  one class per block (`Rcc`, `Gpio`, `Usart`), with one `bv32` field per
  register; `Gpio.afr` is the two-element AFR array. It also holds the
  GPIO per-pin field layout: the 2-bit MODER field and the 4-bit AFR[0]
  nibble of each pin.
- `Uart` (`uart.dfy`) holds the driver's operations. They are methods over
  the register objects, which are passed in where the C code uses the fixed
  `RCC`, `GPIOA` and `USART2` addresses. Each method performs the source's
  read-modify-write steps, one per statement. Its postcondition gives the
  exact end state: the fields that are set, the exact value of CR1 and BRR,
  and that every other bit of every register it may touch keeps its value.

In the C file the GPIO pin set-up is written out inline: PA2's sequence
appears in both init routines and PA3's only in `uart2_rxtx_init`. The model
groups each pin's steps into one method, `ConfigurePa2` or `ConfigurePa3`,
and the init routines call these methods in the source's order.

## Model

| member | source | states |
|---|---|---|
| `BaudRate.ComputeUartBd` | Src/uart.c:138-142 | the divisor `((clk + baud/2) mod 2^32) / baud`, reduced mod 2^16, for a non-zero baud rate; wrapping and narrowing only ever lower it, so it never exceeds the quotient of the unwrapped sum. Its rounding is stated by `ComputeUartBdIsRoundedQuotient` and `ComputeUartBdRoundsIffFits` |
| `BaudRate.ComputeUartBdRoundsToNearest` | Src/uart.c:138-142 | when `clk + baud/2` does not overflow 32 bits and the quotient fits 16 bits, the returned divisor `q` satisfies `-baud <= 2*(clk - q*baud) < baud`: it is `clk/baud` rounded to nearest, ties up |
| `BaudRate.HalfUpDivision` | Src/uart.c:141 | adding half the divisor before a truncating division rounds to nearest: `q = (c + b/2)/b` satisfies `-b <= 2*(c - q*b) < b`, so `q*b` is within `b/2` of `c` and `q` is within one half of `c/b`, ties rounding up |
| `BaudRate.RoundingUnique` | Src/uart.c:141 | at most one integer is `c/b` rounded to nearest with ties up |
| `BaudRate.ComputeUartBdIsRoundedQuotient` | Src/uart.c:138-142 | where nothing wraps, an integer rounds `clk/baud` to nearest if and only if it equals the computed divisor (both directions) |
| `BaudRate.ComputeUartBdRoundsOnlyIfFits` | Src/uart.c:138-142 | when the 32-bit sum wraps or the quotient does not fit 16 bits, the returned divisor is not `clk/baud` rounded to nearest |
| `BaudRate.ComputeUartBdRoundsIffFits` | Src/uart.c:138-142 | the returned divisor is `clk/baud` rounded to nearest if and only if the sum does not wrap and the quotient fits 16 bits (both directions) |
| `BaudRate.NearestQuotientRounds` | Src/uart.c:141 | the reference rounding by repeated subtraction (take the baud rate from the clock while at least half of it remains, and count the steps) yields `c/b` rounded to nearest |
| `BaudRate.ComputeUartBdIsNearestQuotient` | Src/uart.c:138-142 | where nothing wraps, the C divisor equals the repeated-subtraction count, for all inputs |
| `BaudRate.DriverDivisor` | Src/uart.c:20-23 | the driver's clock of 16000000 Hz and baud rate of 115200 fit the divisor and give 139 |
| `BaudRate.RoundsDown` | Src/uart.c:141 | 1000000 / 300000 (about 3.33) gives 3 |
| `BaudRate.TieRoundsUp` | Src/uart.c:141 | 1000000 / 400000 (exactly 2.5) gives 3 |
| `BaudRate.QuotientTruncatedTo16Bits` | Src/uart.c:138-142 | no bounds check: 16000000 / 100 = 0x27100 returns its low 16 bits, 0x7100 |
| `BaudRate.SumWrapsAround` | Src/uart.c:141 | no overflow check: for clock 0xFFFFFFFF and baud 0x100000, the `uint32_t` sum wraps and the divisor is 0, not the rounded 4096 |
| `Registers.ModeField` | Src/uart.c:47-49 | a pin's MODER mode field is a 2-bit value, and shifted back into place it is exactly MODER under the pin's mask |
| `Registers.AfField` | Src/uart.c:51-55 | a pin's AFR[0] alternate-function code is a 4-bit value, and shifted back into place it is exactly AFR[0] under the pin's mask |
| `Registers.ModeFieldDetermines` | Src/uart.c:48-49 | a pin's mode field plus the bits outside it determine MODER, so an update that fixes the field and keeps the rest has one end state, whatever the field held |
| `Registers.AfFieldDetermines` | Src/uart.c:52-55 | the same holds for a pin's AFR[0] nibble |
| `Registers.OtherModeFieldsUnchanged` | Src/uart.c:89-90 | an update that changes only one pin's mode field leaves every other pin's mode as it was |
| `Registers.OtherAfFieldsUnchanged` | Src/uart.c:93-96 | an update that changes only one pin's AF nibble leaves every other pin's nibble as it was |
| `Uart.TxData` | Src/uart.c:128 | the value written to DR has no bit above bit 7 and the same low byte as the argument |
| `Uart.TxDataDependsOnlyOnLowByte` | Src/uart.c:128 | two arguments produce the same DR value if and only if their low bytes agree (both directions) |
| `Uart.TxDataOfByte` | Src/uart.c:128 | an argument in 0..0xFF is written unchanged |
| `Uart.TxDataDropsNinthBit` | Src/uart.c:128 | writing 0x1FF gives the same DR value as writing 0xFF, namely 0xFF |
| `Uart.UartSetBaudrate` | Src/uart.c:132-136 | BRR becomes the 16-bit divisor, zero-extended; CR1, SR and DR are unchanged |
| `Uart.ConfigurePa2` | Src/uart.c:47-55 | GPIOA keeps its two AFR registers; PA2's MODER field becomes `10` and its AFR[0] nibble `0111`, whatever they held; every other MODER and AFR[0] bit and all of AFR[1] keep their values |
| `Uart.ConfigurePa3` | Src/uart.c:57-65 | the same for PA3 (MODER bits 7:6, AFR[0] bits 15:12) |
| `Uart.DriverBrr` | Src/uart.c:72-73 | the divisor the driver programs, zero-extended to the 32-bit BRR, is 139 |
| `Uart.Uart2RxTxInit` | Src/uart.c:41-80 | after the call, GPIOA still has its two AFR registers, AHB1ENR bit 0 and APB1ENR bit 17 are set. PA2 and PA3 are both in mode `10` with AF `0111`. BRR = 139 and CR1 holds exactly the bits TE, RE and UE. All other bits of AHB1ENR, APB1ENR, MODER and AFR[0] are unchanged, as are AFR[1], SR and DR |
| `Uart.Uart2TxInit` | Src/uart.c:82-111 | the same, but only PA2 is configured, and PA3's mode and AF fields keep their values. CR1 holds exactly TE and UE, so RE is clear |
| `Uart.Uart2Read` | Src/uart.c:113-120 | with RXNE set in SR, the returned `char` is the low 8 bits of DR |
| `Uart.Uart2Write` | Src/uart.c:122-130 | with TXE set in SR, DR becomes `ch & 0xFF`; CR1, BRR and SR are unchanged |
| `Uart.IoPutchar` | Src/uart.c:32-39 | returns `ch` unchanged; changes the registers exactly as `Uart2Write(ch)` does |

## Left out

- The polling loops that wait for RXNE (Src/uart.c:116) and for TXE (Src/uart.c:125) are not modelled as loops. Only hardware can end them by setting a status bit, so `Uart.Uart2Read`, `Uart.Uart2Write` and `Uart.IoPutchar` require the flag to be set already. They model what follows the loop. Whether the loop ever ends, which can mean blocking forever, is not modelled.
- Volatile, memory-mapped semantics are not modelled. DR is a plain field here. Reading DR does not clear RXNE, writing DR does not clear TXE or start a transmission, and SR never changes. The C code's separate bus writes for one field are modelled as successive assignments to the same field, so the intermediate values are not observed by anything.
- The vendor structures `RCC_TypeDef`, `GPIO_TypeDef` and `USART_TypeDef` are not part of this model, and neither are the base addresses behind `RCC`, `GPIOA` and `USART2`. Only the registers the driver touches are fields. The three blocks are passed as parameters instead of being reached through global symbols.
- The C `int` argument of `uart2_write` and `__io_putchar` is modelled as its 32-bit two's-complement bit pattern (`bv32`), which is what `ch & 0xFF` operates on. The `char` result of `uart2_read` is modelled as 8 bits (`bv8`). The integer reading of that byte (signed or unsigned `char`) is not modelled.
- `BaudRate.ComputeUartBd` requires a non-zero baud rate. The C division by zero is undefined behaviour, and the only caller passes 115200.
- Clock-gating order requirements and the electrical behaviour of the pins are hardware facts, not code logic, and are not modelled.
