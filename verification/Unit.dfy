/** Latencies of the execution units: sw/src/unit.c, `alu_get_cycle`. */
module Unit {

  const F10_ADD := 0x000
  const F10_SLL := 0x001
  const F10_SLT := 0x002
  const F10_SLTU := 0x003
  const F10_XOR := 0x004
  const F10_SRL := 0x005
  const F10_OR := 0x006
  const F10_AND := 0x007
  const F10_SUB := 0x200
  const F10_SRA := 0x205

  const F10_MUL := 0x008
  const F10_MULH := 0x009
  const F10_MULHSU := 0x00A
  const F10_MULHU := 0x00B
  const F10_DIV := 0x00C
  const F10_DIVU := 0x00D
  const F10_REM := 0x00E
  const F10_REMU := 0x00F

  const MUL_LATENCY := 4

  /** Operations outside the tables take no cycle at all. */
  function AluGetCycle(f10: nat): (cycles: nat)
    ensures cycles in {0, 1, 4, 19}
    ensures cycles == 19 <==> 0x00C <= f10 <= 0x00F
    ensures cycles == 4 <==> 0x008 <= f10 <= 0x00B
    ensures cycles == 1 <==> f10 < 8 || f10 == 0x200 || f10 == 0x205
  {
    if f10 in {F10_ADD, F10_SLL, F10_SLT, F10_SLTU, F10_XOR, F10_SRL, F10_OR, F10_AND, F10_SUB, F10_SRA} then 1
    else if f10 in {F10_MUL, F10_MULH, F10_MULHSU, F10_MULHU} then MUL_LATENCY
    else if f10 in {F10_DIV, F10_DIVU, F10_REM, F10_REMU} then 19
    else 0
  }
}
