/**
 * The LS-8 CPU of ls8/cpu.py as a pure state machine. A `Machine` is the
 * whole state the `CPU` object holds; every handler maps a machine to the
 * next one, or to a fault: the exception the Python code raises at that
 * point, or, where the source would silently wrap a slightly negative index
 * (-256..-1 for `ram`, -8..-1 for `reg`), a fault in its place.
 * The class in cpu.dfy is proved against these functions.
 */
module Semantics {
  import opened Wrappers
  import opened Isa

  const RamSize: int := 256
  const RegCount: int := 8
  const StackStart: int := 255

  /**
   * Why an instruction cannot complete. An index past the end of `ram` or
   * `reg`, an index below -256 (below -8 for `reg`), an unknown opcode and an
   * unsupported ALU op are uncaught exceptions in the source. An index from
   * -256 to -1 (-8 to -1 for `reg`) wraps to the end of the list in the source,
   * which carries on; the model reports an index fault there too, and
   * StackOverflow stands where the source would write ram[-1], that is ram[255].
   */
  datatype Fault =
    | RamIndex(address: int)      // an index into `ram` outside 0..255 (IndexError)
    | RegIndex(index: int)        // an index into `reg` outside 0..7 (IndexError)
    | InvalidOpcode(opcode: int)  // a fetched cell that is not a key of `ops` (KeyError)
    | UnsupportedAluOp(op: string)
    | StackOverflow               // PUSH or CALL with the stack pointer already at 0

  /**
   * The CPU's fields. `printed` is what PRN has written to standard output,
   * one value per line, in order.
   */
  datatype Machine = Machine(
    running: bool,
    pc: int,
    reg: seq<int>,
    ram: seq<int>,
    sp: int,
    printed: seq<int>)

  predicate InRam(address: int) {
    0 <= address < RamSize
  }

  predicate IsReg(index: int) {
    0 <= index < RegCount
  }

  /**
   * The shape every reachable machine has. The stack pointer can reach 256:
   * a POP or RET with the pointer at 255 moves it there, and only the next
   * POP or RET (which reads ram[256]) fails.
   */
  predicate WellFormed(m: Machine) {
    |m.reg| == RegCount && |m.ram| == RamSize && 0 <= m.sp <= RamSize
  }

  /** A freshly constructed CPU. */
  function Initial(): (m: Machine)
    ensures WellFormed(m) && !m.running && m.pc == 0 && m.sp == StackStart && m.printed == []
    ensures forall i :: 0 <= i < RegCount ==> m.reg[i] == 0
    ensures forall a :: 0 <= a < RamSize ==> m.ram[a] == 0
  {
    Machine(false, 0, seq(RegCount, _ => 0), seq(RamSize, _ => 0), StackStart, [])
  }

  /** `ram[address]`, failing where the list index would be out of range. */
  function RamAt(ram: seq<int>, address: int): Result<int, Fault>
    requires |ram| == RamSize
  {
    if InRam(address) then Ok(ram[address]) else Err(RamIndex(address))
  }

  /** `reg[index]`, failing where the list index would be out of range. */
  function RegAt(reg: seq<int>, index: int): Result<int, Fault>
    requires |reg| == RegCount
  {
    if IsReg(index) then Ok(reg[index]) else Err(RegIndex(index))
  }

  /** `reg[index] = value`; the source calls this `ram_write`. */
  function SetReg(m: Machine, index: int, value: int): (r: Result<Machine, Fault>)
    requires WellFormed(m)
    ensures r.Ok? <==> IsReg(index)
    ensures r.Err? ==> r.error == RegIndex(index)
    ensures r.Ok? ==> WellFormed(r.value) && r.value.reg[index] == value
    ensures r.Ok? ==> forall j :: 0 <= j < RegCount && j != index ==> r.value.reg[j] == m.reg[j]
    ensures r.Ok? ==> r.value.(reg := m.reg) == m
  {
    if IsReg(index) then Ok(m.(reg := m.reg[index := value])) else Err(RegIndex(index))
  }

  /** `print(reg[index])`; the source calls this `ram_read`. */
  function Print(m: Machine, index: int): (r: Result<Machine, Fault>)
    requires WellFormed(m)
    ensures r.Ok? <==> IsReg(index)
    ensures r.Err? ==> r.error == RegIndex(index)
    ensures r.Ok? ==> r.value.printed == m.printed + [m.reg[index]] && r.value.(printed := m.printed) == m
  {
    var value :- RegAt(m.reg, index);
    Ok(m.(printed := m.printed + [value]))
  }

  /** LDI: register ram[pc+1] := ram[pc+2]. */
  function Ldi(m: Machine): (r: Result<Machine, Fault>)
    requires WellFormed(m)
    ensures r.Ok? <==> InRam(m.pc + 1) && InRam(m.pc + 2) && IsReg(m.ram[m.pc + 1])
    ensures r.Ok? ==> r.value == m.(reg := m.reg[m.ram[m.pc + 1] := m.ram[m.pc + 2]], pc := m.pc + 3)
  {
    var address :- RamAt(m.ram, m.pc + 1);
    var value :- RamAt(m.ram, m.pc + 2);
    var m' :- SetReg(m, address, value);
    Ok(m'.(pc := m.pc + 3))
  }

  /** PRN: print register ram[pc+1]. */
  function Prn(m: Machine): (r: Result<Machine, Fault>)
    requires WellFormed(m)
    ensures r.Ok? <==> InRam(m.pc + 1) && IsReg(m.ram[m.pc + 1])
    ensures r.Ok? ==> r.value == m.(printed := m.printed + [m.reg[m.ram[m.pc + 1]]], pc := m.pc + 2)
  {
    var address :- RamAt(m.ram, m.pc + 1);
    var m' :- Print(m, address);
    Ok(m'.(pc := m.pc + 2))
  }

  /**
   * The ALU: `op` is the operation's name. Python integers do not
   * overflow, so neither do these.
   */
  function Alu(m: Machine, op: string, a: int, b: int): (r: Result<Machine, Fault>)
    requires WellFormed(m)
    ensures op != "ADD" && op != "MUL" ==> r == Err(UnsupportedAluOp(op))
    ensures r.Ok? <==> (op == "ADD" || op == "MUL") && IsReg(a) && IsReg(b)
    ensures r.Ok? && op == "ADD" ==> r.value == m.(reg := m.reg[a := m.reg[a] + m.reg[b]])
    ensures r.Ok? && op == "MUL" ==> r.value == m.(reg := m.reg[a := m.reg[a] * m.reg[b]])
  {
    if op == "ADD" then
      var x :- RegAt(m.reg, a);
      var y :- RegAt(m.reg, b);
      Ok(m.(reg := m.reg[a := x + y]))
    else if op == "MUL" then
      var x :- RegAt(m.reg, a);
      var y :- RegAt(m.reg, b);
      Ok(m.(reg := m.reg[a := x * y]))
    else
      Err(UnsupportedAluOp(op))
  }

  /** ADD and MUL: the ALU on registers ram[pc+1] and ram[pc+2], then skip both operands. */
  function Arith(m: Machine, op: string): (r: Result<Machine, Fault>)
    requires WellFormed(m)
    requires op == "ADD" || op == "MUL"
    ensures r.Ok? <==> InRam(m.pc + 1) && InRam(m.pc + 2) && IsReg(m.ram[m.pc + 1]) && IsReg(m.ram[m.pc + 2])
    ensures r.Ok? ==>
      var a, b := m.ram[m.pc + 1], m.ram[m.pc + 2];
      r.value == m.(reg := m.reg[a := if op == "ADD" then m.reg[a] + m.reg[b] else m.reg[a] * m.reg[b]],
                    pc := m.pc + 3)
  {
    var a :- RamAt(m.ram, m.pc + 1);
    var b :- RamAt(m.ram, m.pc + 2);
    var m' :- Alu(m, op, a, b);
    Ok(m'.(pc := m.pc + 3))
  }

  /** HLT: clear the running flag; nothing else changes, not even pc. */
  function Hlt(m: Machine): (r: Machine)
    ensures !r.running && r.(running := m.running) == m
  {
    m.(running := false)
  }

  /** PUSH: move the stack pointer down and store register ram[pc+1] there. */
  function Push(m: Machine): (r: Result<Machine, Fault>)
    requires WellFormed(m)
    ensures r.Ok? <==> InRam(m.pc + 1) && IsReg(m.ram[m.pc + 1]) && m.sp > 0
    ensures r.Ok? ==>
      r.value == m.(sp := m.sp - 1, ram := m.ram[m.sp - 1 := m.reg[m.ram[m.pc + 1]]], pc := m.pc + 2)
  {
    var address :- RamAt(m.ram, m.pc + 1);
    var value :- RegAt(m.reg, address);
    if m.sp == 0 then Err(StackOverflow)
    else Ok(m.(sp := m.sp - 1, ram := m.ram[m.sp - 1 := value], pc := m.pc + 2))
  }

  /** POP: load register ram[pc+1] from the top of the stack and move the pointer up. */
  function Pop(m: Machine): (r: Result<Machine, Fault>)
    requires WellFormed(m)
    ensures r.Ok? <==> InRam(m.pc + 1) && m.sp < RamSize && IsReg(m.ram[m.pc + 1])
    ensures r.Ok? ==>
      r.value == m.(reg := m.reg[m.ram[m.pc + 1] := m.ram[m.sp]], sp := m.sp + 1, pc := m.pc + 2)
  {
    var address :- RamAt(m.ram, m.pc + 1);
    var value :- RamAt(m.ram, m.sp);
    if !IsReg(address) then Err(RegIndex(address))
    else Ok(m.(reg := m.reg[address := value], sp := m.sp + 1, pc := m.pc + 2))
  }

  /** CALL: push the return address pc+2 and jump to the address in register ram[pc+1]. */
  function Call(m: Machine): (r: Result<Machine, Fault>)
    requires WellFormed(m)
    ensures r.Ok? <==> InRam(m.pc + 1) && IsReg(m.ram[m.pc + 1]) && m.sp > 0
    ensures r.Ok? ==>
      r.value == m.(sp := m.sp - 1, ram := m.ram[m.sp - 1 := m.pc + 2], pc := m.reg[m.ram[m.pc + 1]])
  {
    var address :- RamAt(m.ram, m.pc + 1);
    var target :- RegAt(m.reg, address);
    if m.sp == 0 then Err(StackOverflow)
    else Ok(m.(sp := m.sp - 1, ram := m.ram[m.sp - 1 := m.pc + 2], pc := target))
  }

  /** RET: pop the return address into pc. */
  function Ret(m: Machine): (r: Result<Machine, Fault>)
    requires WellFormed(m)
    ensures r.Ok? <==> m.sp < RamSize
    ensures r.Ok? ==> r.value == m.(pc := m.ram[m.sp], sp := m.sp + 1)
  {
    var address :- RamAt(m.ram, m.sp);
    Ok(m.(sp := m.sp + 1, pc := address))
  }

  /** Run the handler the dispatch table binds to `i`. */
  function Execute(i: Instr, m: Machine): (r: Result<Machine, Fault>)
    requires WellFormed(m)
    ensures r.Ok? ==> WellFormed(r.value) && m.printed <= r.value.printed
    ensures r.Ok? ==> (r.value.running <==> m.running && i != HLT)
    ensures r.Err? ==> !r.error.InvalidOpcode?
    ensures i != CALL && i != RET && i != HLT && r.Ok? ==> r.value.pc == m.pc + 1 + Operands(i)
  {
    match i
    case LDI => Ldi(m)
    case PRN => Prn(m)
    case ADD => Arith(m, "ADD")
    case MUL => Arith(m, "MUL")
    case HLT => Ok(Hlt(m))
    case PUSH => Push(m)
    case POP => Pop(m)
    case CALL => Call(m)
    case RET => Ret(m)
  }

  /** One turn of the run loop: fetch ram[pc], look it up in `ops`, run the handler. */
  function Step(m: Machine): (r: Result<Machine, Fault>)
    requires WellFormed(m)
    ensures !InRam(m.pc) ==> r == Err(RamIndex(m.pc))
    ensures InRam(m.pc) && Decode(m.ram[m.pc]).None? ==> r == Err(InvalidOpcode(m.ram[m.pc]))
    ensures r.Ok? ==> InRam(m.pc) && Decode(m.ram[m.pc]).Some?
    ensures r.Ok? ==> WellFormed(r.value)
    ensures r.Ok? ==> (r.value.running <==> m.running && Decode(m.ram[m.pc]) != Some(HLT))
    ensures r.Ok? ==> m.printed <= r.value.printed
  {
    var ir :- RamAt(m.ram, m.pc);
    match Decode(ir)
    case None => Err(InvalidOpcode(ir))
    case Some(i) => Execute(i, m)
  }

  /** How a bounded run ended. */
  datatype Stop = Halted | Faulted(fault: Fault) | OutOfFuel

  /**
   * The `while self.running` loop, cut off after `fuel` instructions. A fault
   * ends the run with the machine as it was before the failing instruction.
   */
  function RunFrom(m: Machine, fuel: nat): (r: (Machine, Stop))
    requires WellFormed(m)
    ensures WellFormed(r.0)
    ensures r.1 == Halted <==> !r.0.running
    ensures r.1.Faulted? ==> r.0.running && Step(r.0) == Err(r.1.fault)
    ensures r.1 == OutOfFuel ==> r.0.running
    ensures m.printed <= r.0.printed
    decreases fuel
  {
    if !m.running then (m, Halted)
    else if fuel == 0 then (m, OutOfFuel)
    else
      match Step(m)
      case Err(f) => (m, Faulted(f))
      case Ok(next) => RunFrom(next, fuel - 1)
  }

  /** One turn of the loop on a running machine with fuel left. */
  lemma RunFromStep(m: Machine, fuel: nat)
    requires WellFormed(m) && m.running && fuel > 0
    ensures Step(m).Err? ==> RunFrom(m, fuel) == (m, Faulted(Step(m).error))
    ensures Step(m).Ok? ==> RunFrom(m, fuel) == RunFrom(Step(m).value, fuel - 1)
  {
  }

  /** `run`: set the running flag, then loop. */
  function Run(m: Machine, fuel: nat): (r: (Machine, Stop))
    requires WellFormed(m)
    ensures fuel == 0 ==> r == (m.(running := true), OutOfFuel)
    ensures WellFormed(r.0) && (r.1 == Halted <==> !r.0.running)
    ensures r.1.Faulted? ==> r.0.running && Step(r.0) == Err(r.1.fault)
  {
    RunFrom(m.(running := true), fuel)
  }

  // ---------------------------------------------------------------------
  // Properties of the instruction set
  // ---------------------------------------------------------------------

  /**
   * Every instruction that falls through to the next one moves pc past its
   * opcode and exactly as many operand bytes as the opcode's high bits say.
   */
  lemma FallThroughLength(m: Machine)
    requires WellFormed(m) && Step(m).Ok?
    requires Decode(m.ram[m.pc]).value !in {HLT, CALL, RET}
    ensures Step(m).value.pc == m.pc + 1 + Operands(Decode(m.ram[m.pc]).value)
  {
  }

  /** A PUSH immediately followed by a POP moves a value from one register to another through the stack. */
  lemma PushThenPop(m: Machine)
    requires WellFormed(m) && 0 <= m.pc && m.pc + 3 < RamSize
    requires m.ram[m.pc] == Opcode(PUSH) && m.ram[m.pc + 2] == Opcode(POP)
    requires IsReg(m.ram[m.pc + 1]) && IsReg(m.ram[m.pc + 3])
    requires m.sp > 0
    // the slot PUSH writes is not one of the POP instruction's own bytes
    requires m.sp - 1 != m.pc + 2 && m.sp - 1 != m.pc + 3
    ensures Step(m).Ok? && Step(Step(m).value).Ok?
    ensures
      var v, after := m.reg[m.ram[m.pc + 1]], Step(Step(m).value).value;
      after.reg == m.reg[m.ram[m.pc + 3] := v] &&
      after.sp == m.sp && after.pc == m.pc + 4 &&
      after.ram == m.ram[m.sp - 1 := v] &&
      after.running == m.running && after.printed == m.printed
  {
    var v := m.reg[m.ram[m.pc + 1]];
    var pushed := m.(sp := m.sp - 1, ram := m.ram[m.sp - 1 := v], pc := m.pc + 2);
    assert Step(m) == Ok(pushed);
    assert pushed.ram[pushed.pc] == Opcode(POP) && pushed.ram[pushed.pc + 1] == m.ram[m.pc + 3];
    assert pushed.ram[pushed.sp] == v;
  }

  /**
   * A CALL to a subroutine that returns at once leaves the machine where it
   * was, two bytes further on; only the stack slot below sp keeps the return address.
   */
  lemma CallThenRet(m: Machine)
    requires WellFormed(m) && InRam(m.pc) && InRam(m.pc + 1)
    requires m.ram[m.pc] == Opcode(CALL) && IsReg(m.ram[m.pc + 1]) && m.sp > 0
    requires InRam(m.reg[m.ram[m.pc + 1]]) && m.reg[m.ram[m.pc + 1]] != m.sp - 1
    requires m.ram[m.reg[m.ram[m.pc + 1]]] == Opcode(RET)
    ensures Step(m).Ok?
    ensures Step(m).value.pc == m.reg[m.ram[m.pc + 1]] && Step(m).value.sp == m.sp - 1
    ensures Step(Step(m).value) == Ok(m.(pc := m.pc + 2, ram := m.ram[m.sp - 1 := m.pc + 2]))
  {
    var called := m.(sp := m.sp - 1, ram := m.ram[m.sp - 1 := m.pc + 2], pc := m.reg[m.ram[m.pc + 1]]);
    assert Step(m) == Ok(called);
    assert called.ram[called.pc] == Opcode(RET);
  }

  /** An unknown opcode stops the machine with InvalidOpcode and changes nothing. */
  lemma UnknownOpcodeFaults(m: Machine, fuel: nat)
    requires WellFormed(m) && m.running && InRam(m.pc) && Decode(m.ram[m.pc]).None?
    ensures RunFrom(m, fuel + 1) == (m, Faulted(InvalidOpcode(m.ram[m.pc])))
  {
  }

  /** Once HLT runs, the loop stops: the machine is the one before HLT with the flag cleared. */
  lemma HaltStops(m: Machine, fuel: nat)
    requires WellFormed(m) && m.running && InRam(m.pc) && m.ram[m.pc] == Opcode(HLT)
    ensures RunFrom(m, fuel + 1) == (m.(running := false), Halted)
  {
    assert Step(m) == Ok(m.(running := false));
  }

  /** Once a run has ended on its own, more fuel changes nothing. */
  lemma {:induction false} RunMoreFuel(m: Machine, fuel: nat, extra: nat)
    requires WellFormed(m) && RunFrom(m, fuel).1 != OutOfFuel
    ensures RunFrom(m, fuel + extra) == RunFrom(m, fuel)
    decreases fuel
  {
    if m.running && fuel > 0 {
      match Step(m)
      case Err(_) =>
      case Ok(next) => RunMoreFuel(next, fuel - 1, extra);
    }
  }

  /** Running `a` steps and then `b` more is running `a + b` steps. */
  lemma {:induction false} RunConcat(m: Machine, a: nat, b: nat)
    requires WellFormed(m) && RunFrom(m, a).1 == OutOfFuel
    ensures RunFrom(m, a + b) == RunFrom(RunFrom(m, a).0, b)
    decreases a
  {
    var r := Step(m);
    if a > 0 && r.Ok? {
      var next := r.value;
      assert RunFrom(m, a) == RunFrom(next, a - 1);
      assert RunFrom(m, a + b) == RunFrom(next, a - 1 + b);
      RunConcat(next, a - 1, b);
    }
  }

  /** LDI R0,8; LDI R1,9; MUL R0,R1; PRN R0; HLT — the machine's multiply example. */
  function MultiplyProgram(): seq<int> {
    [Opcode(LDI), 0, 8, Opcode(LDI), 1, 9, Opcode(MUL), 0, 1, Opcode(PRN), 0, Opcode(HLT)]
  }

  /** Loaded into a fresh CPU and run, the multiply example prints 72 and halts after five instructions. */
  lemma MultiplyExample()
    ensures var ram := MultiplyProgram() + seq(RamSize - |MultiplyProgram()|, _ => 0);
      var (final, stop) := Run(Initial().(ram := ram), 5);
      stop == Halted && final.printed == [72] && final.pc == 11 && final.reg[0] == 72
  {
    var m0 := Initial().(ram := MultiplyProgram() + seq(RamSize - |MultiplyProgram()|, _ => 0), running := true);
    var m1 := m0.(reg := m0.reg[0 := 8], pc := 3);
    var m2 := m1.(reg := m1.reg[1 := 9], pc := 6);
    var m3 := m2.(reg := m2.reg[0 := 72], pc := 9);
    var m4 := m3.(printed := [72], pc := 11);
    assert Step(m0) == Ok(m1);
    assert Step(m1) == Ok(m2);
    assert Step(m2) == Ok(m3);
    assert m3.printed + [m3.reg[m3.ram[m3.pc + 1]]] == [72];
    assert Step(m3) == Ok(m4);
    assert Step(m4) == Ok(m4.(running := false));
  }
}
