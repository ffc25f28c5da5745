/** Opcodes and R-type function codes of include/dlx_isa.h. */
module Isa {
  const I_RTYPE := 0x00
  const I_BEQZ := 0x04
  const I_BNEZ := 0x05
  const I_ADDI := 0x08
  const I_ADDUI := 0x09
  const I_SUBI := 0x0A
  const I_SUBUI := 0x0B
  const I_ANDI := 0x0C
  const I_ORI := 0x0D
  const I_XORI := 0x0E
  const I_LHI := 0x0F
  const I_JR := 0x12
  const I_JALR := 0x13
  const I_SLLI := 0x14
  const I_SRLI := 0x16
  const I_SRAI := 0x17
  const I_SGTI := 0x19
  const I_SEQI := 0x1A
  const I_SGEI := 0x1B
  const I_SLTI := 0x1C
  const I_SNEI := 0x1D
  const I_SLEI := 0x1E
  const I_LB := 0x20
  const I_LH := 0x21
  const I_LW := 0x23
  const I_LBU := 0x24
  const I_LHU := 0x25
  const I_SB := 0x28
  const I_SH := 0x29
  const I_SW := 0x2B
  const I_J := 0x02
  const I_JAL := 0x03
  const I_RFE := 0x3F
  const I_INT := 0x39
  const I_SLL_FUNC := 0x04
  const I_SRL_FUNC := 0x06
  const I_SRA_FUNC := 0x07
  const I_ADD_FUNC := 0x20
  const I_SUB_FUNC := 0x22
  const I_AND_FUNC := 0x24
  const I_OR_FUNC := 0x25
  const I_XOR_FUNC := 0x26
  const I_SGT_FUNC := 0x29
  const I_SEQ_FUNC := 0x2A
  const I_SGE_FUNC := 0x2B
  const I_SLT_FUNC := 0x2C
  const I_SNE_FUNC := 0x2D
  const I_SLE_FUNC := 0x2E
  const I_MOVI2S_FUNC := 0x30
  const I_MOVS2I_FUNC := 0x31
}
