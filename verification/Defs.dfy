/** Sizes, address ranges and enumerations of include/dlx_defs.h. */
module Defs {
  const WORD := 0x1_0000_0000

  // uint32_t, uint16_t and uint8_t values
  type word = x: int | 0 <= x < 0x1_0000_0000
  type half = x: int | 0 <= x < 0x1_0000
  type byte = x: int | 0 <= x < 0x100

  datatype Option<+T> = None | Some(value: T)
  datatype Result<+T, +E> = Ok(value: T) | Err(error: E) {
    predicate IsFailure() { Err? }

    function PropagateFailure<U>(): Result<U, E>
      requires Err?
    {
      Err(error)
    }

    function Extract(): T
      requires Ok?
    {
      value
    }
  }

  const GPR_COUNT := 32
  const REG_LINK := 31

  const ROM_BASE: word := 0
  const ROM_SIZE := 0x1_0000
  const RAM_BASE: word := 0x4000_0000
  const RAM_SIZE := 0x20_0000
  const DEVICES_BASE: word := 0xC000_0000

  // Interrupt lines of the controller; code 0xF means "no line asserted"
  const MAX_DEVICES := 15
  const NO_LINE: word := 0xF

  const SPR_SR := 0
  const SPR_IAR := 1
  const SPR_CR := 2
  const SPR_COUNT := 3
  const SR_IEN: word := 1

  datatype ExecState = RUNNING | HALT | FAULT | SIGNAL | TIMEOUT | CRITICAL

  type Rom = s: seq<byte> | |s| == ROM_SIZE witness seq(ROM_SIZE, _ => 0)
  type Ram = s: seq<byte> | |s| == RAM_SIZE witness seq(RAM_SIZE, _ => 0)
  type Gprs = s: seq<word> | |s| == GPR_COUNT witness seq(GPR_COUNT, _ => 0)
  type Sprs = s: seq<word> | |s| == SPR_COUNT witness seq(SPR_COUNT, _ => 0)
  type Lines = s: seq<bool> | |s| == MAX_DEVICES witness seq(MAX_DEVICES, _ => false)
}
