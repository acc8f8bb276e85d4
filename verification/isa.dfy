/**
 * The LS-8 instruction set as far as this machine implements it: the nine
 * opcode bytes declared at the top of ls8/cpu.py and the `ops` table that
 * maps a fetched byte to its handler.
 */
module Isa {
  import opened Wrappers

  /** The instructions that have an entry in the dispatch table. */
  datatype Instr = LDI | PRN | ADD | MUL | HLT | PUSH | POP | CALL | RET

  /** The byte that encodes an instruction. */
  function Opcode(i: Instr): (b: int)
    ensures 0 <= b < 256
  {
    match i
    case HLT => 0x01
    case LDI => 0x82
    case PRN => 0x47
    case ADD => 0xA0
    case MUL => 0xA2
    case PUSH => 0x45
    case POP => 0x46
    case CALL => 0x50
    case RET => 0x11
  }

  /**
   * The dispatch table: the instruction a fetched cell selects, or None when
   * the cell is not a key of the table (the source raises KeyError there).
   */
  function Decode(b: int): (r: Option<Instr>)
    ensures r.Some? ==> Opcode(r.value) == b
    ensures r.None? ==> forall i: Instr :: Opcode(i) != b
  {
    if b == 0x82 then Some(LDI)
    else if b == 0x47 then Some(PRN)
    else if b == 0xA0 then Some(ADD)
    else if b == 0xA2 then Some(MUL)
    else if b == 0x01 then Some(HLT)
    else if b == 0x45 then Some(PUSH)
    else if b == 0x46 then Some(POP)
    else if b == 0x50 then Some(CALL)
    else if b == 0x11 then Some(RET)
    else None
  }

  /** Every instruction's byte selects that instruction: the table has no gaps and no clashes. */
  lemma DecodeOpcode(i: Instr)
    ensures Decode(Opcode(i)) == Some(i)
  {
  }

  /** The two high bits of an opcode give its number of operand bytes. */
  function Operands(i: Instr): (n: nat)
    ensures n <= 2
  {
    Opcode(i) / 64
  }
}
