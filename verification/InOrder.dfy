/**
 * The reference machine: decoded integer instructions run one at a time, in program order.
 * Registers are the 32 of the RISC-V Unprivileged ISA, section 2.1; the operations are those of
 * its section 2.4 (register-register and register-immediate).
 */
module InOrder {
  import opened Base

  const NREGS := 32

  type RegNo = r: nat | r < NREGS

  type RegVals = x: seq<int32> | |x| == NREGS witness seq(NREGS, _ => 0)

  /** What `alu_exec` computes from an operation code and two operands. */
  type AluOp = (nat, int32, int32) -> int32

  datatype Source = Reg(r: RegNo) | Imm(value: int32)

  datatype Instr = Instr(rd: RegNo, rs1: RegNo, src2: Source, f10: nat)

  /**
   * What the decoder can produce: an immediate form has three function bits and a 12-bit
   * immediate, a register form ten function bits (sw/src/engine.c:227-237).
   */
  predicate Encodes(i: Instr) {
    match i.src2
    case Imm(v) => i.f10 < 8 && -0x800 <= v < 0x800
    case Reg(_) => i.f10 < 0x400
  }

  function Value(x: RegVals, s: Source): int32 {
    match s
    case Reg(r) => x[r]
    case Imm(v) => v
  }

  function Exec(alu: AluOp, x: RegVals, i: Instr): int32 {
    alu(i.f10, x[i.rs1], Value(x, i.src2))
  }

  function Step(alu: AluOp, x: RegVals, i: Instr): RegVals {
    if i.rd == 0 then x else x[i.rd := Exec(alu, x, i)]
  }

  /** The registers after the first `k` instructions of `prog`. */
  function Seq(alu: AluOp, x: RegVals, prog: seq<Instr>, k: nat): RegVals
    requires k <= |prog|
  {
    if k == 0 then x else Step(alu, Seq(alu, x, prog, k - 1), prog[k - 1])
  }

  /** The result instruction `n` has when everything runs in order. */
  function Result(alu: AluOp, x: RegVals, prog: seq<Instr>, n: nat): int32
    requires n < |prog|
  {
    Exec(alu, Seq(alu, x, prog, n), prog[n])
  }

  /** Instruction `m` is the youngest one before `n` that writes register `r`. */
  ghost predicate LastWriter(prog: seq<Instr>, r: nat, n: nat, m: nat)
    requires n <= |prog|
  {
    && r != 0
    && m < n
    && prog[m].rd == r
    && forall k | m < k < n :: prog[k].rd != r
  }

  /** Appending instructions leaves earlier register values alone. */
  lemma {:induction false} SeqPrefix(alu: AluOp, x: RegVals, prog: seq<Instr>, more: seq<Instr>, k: nat)
    requires k <= |prog|
    ensures Seq(alu, x, prog + more, k) == Seq(alu, x, prog, k)
  {
    if k != 0 {
      SeqPrefix(alu, x, prog, more, k - 1);
    }
  }

  /** What one more instruction does to the youngest writers. */
  lemma LastWriterAppend(prog: seq<Instr>, i: Instr, r: nat, m: nat)
    ensures i.rd == r && r != 0 ==> LastWriter(prog + [i], r, |prog| + 1, |prog|)
    ensures i.rd != r && LastWriter(prog, r, |prog|, m) ==> LastWriter(prog + [i], r, |prog| + 1, m)
  {
    assert forall k | 0 <= k < |prog| :: (prog + [i])[k] == prog[k];
  }

  lemma LastWriterWrites(prog: seq<Instr>, r: nat, n: nat, m: nat)
    requires n <= |prog| && LastWriter(prog, r, n, m)
    ensures r != 0 && m < n && prog[m].rd == r
  {
  }

  /** A register that nothing in between writes keeps its value. */
  lemma {:induction false} SeqUnwritten(alu: AluOp, x: RegVals, prog: seq<Instr>, r: RegNo, m: nat, n: nat)
    requires m <= n <= |prog|
    requires forall k | m <= k < n :: prog[k].rd != r || r == 0
    ensures Seq(alu, x, prog, n)[r] == Seq(alu, x, prog, m)[r]
    decreases n
  {
    if m < n {
      SeqUnwritten(alu, x, prog, r, m, n - 1);
    }
  }

  /** The value a register has is the result of its youngest writer. */
  lemma LastWriterValue(alu: AluOp, x: RegVals, prog: seq<Instr>, r: RegNo, n: nat, m: nat)
    requires n <= |prog| && LastWriter(prog, r, n, m)
    ensures Seq(alu, x, prog, n)[r] == Result(alu, x, prog, m)
  {
    SeqUnwritten(alu, x, prog, r, m + 1, n);
  }

  /** Register zero never changes. */
  lemma ZeroStays(alu: AluOp, x: RegVals, prog: seq<Instr>, k: nat)
    requires k <= |prog|
    ensures Seq(alu, x, prog, k)[0] == x[0]
  {
    SeqUnwritten(alu, x, prog, 0, 0, k);
  }
}
