/**
 * The `CPU` class of ls8/cpu.py. Its fields change in place, its `ram` and
 * `reg` lists are arrays, and every method is proved to leave the CPU in the
 * state the matching function of module Semantics computes, or, when that
 * function reports a fault, to return the same fault and change nothing.
 */
module Ls8 {
  import opened Wrappers
  import opened Isa
  import opened Semantics
  import Loader

  class Cpu {
    var running: bool
    var pc: int
    const reg: array<int>
    const ram: array<int>
    var stackPointer: int
    /** What PRN has written to standard output, one value per line. */
    var printed: seq<int>

    ghost predicate Valid()
      reads this
    {
      reg.Length == RegCount && ram.Length == RamSize && reg != ram &&
      0 <= stackPointer <= RamSize
    }

    /** The CPU's state as a value. */
    ghost function Snapshot(): (m: Machine)
      requires Valid()
      reads this, reg, ram
      ensures WellFormed(m)
    {
      Machine(running, pc, reg[..], ram[..], stackPointer, printed)
    }

    /** The outcome `r` of a method matches the verdict `spec` of the semantics. */
    ghost predicate Reflects(r: Result<(), Fault>, spec: Result<Machine, Fault>)
      requires Valid()
      reads this, reg, ram
    {
      match spec
      case Ok(m) => r.Ok? && Snapshot() == m
      case Err(f) => r == Err(f)
    }

    /** `__init__`: everything zero, the stack pointer at 255, not running. */
    constructor ()
      ensures Valid() && fresh(reg) && fresh(ram)
      ensures !running && pc == 0 && stackPointer == StackStart && printed == []
      ensures forall i :: 0 <= i < RegCount ==> reg[i] == 0
      ensures forall a :: 0 <= a < RamSize ==> ram[a] == 0
      ensures Snapshot() == Initial()
    {
      running := false;
      pc := 0;
      reg := new int[RegCount](_ => 0);
      ram := new int[RamSize](_ => 0);
      stackPointer := StackStart;
      printed := [];
      new;
      assert reg[..] == Initial().reg;
      assert ram[..] == Initial().ram;
    }

    /** `ram_write`: despite its name, it stores `value` into register `address`. */
    method RamWrite(address: int, value: int) returns (r: Result<(), Fault>)
      requires Valid()
      modifies reg
      ensures Valid() && Reflects(r, SetReg(old(Snapshot()), address, value))
      ensures r.Err? ==> Snapshot() == old(Snapshot())
    {
      if !IsReg(address) {
        return Err(RegIndex(address));
      }
      reg[address] := value;
      r := Ok(());
    }

    /** `ram_read`: despite its name, it prints register `address`. */
    method RamRead(address: int) returns (r: Result<(), Fault>)
      requires Valid()
      modifies this
      ensures Valid() && Reflects(r, Print(old(Snapshot()), address))
      ensures r.Err? ==> Snapshot() == old(Snapshot())
    {
      var value :- RegAt(reg[..], address);
      printed := printed + [value];
      r := Ok(());
    }

    method Ldi() returns (r: Result<(), Fault>)
      requires Valid()
      modifies this, reg
      ensures Valid() && Reflects(r, Semantics.Ldi(old(Snapshot())))
      ensures r.Err? ==> Snapshot() == old(Snapshot())
    {
      var address :- RamAt(ram[..], pc + 1);
      var value :- RamAt(ram[..], pc + 2);
      var written :- RamWrite(address, value);
      pc := pc + 3;
      r := Ok(());
    }

    method Prn() returns (r: Result<(), Fault>)
      requires Valid()
      modifies this
      ensures Valid() && Reflects(r, Semantics.Prn(old(Snapshot())))
      ensures r.Err? ==> Snapshot() == old(Snapshot())
    {
      var address :- RamAt(ram[..], pc + 1);
      var shown :- RamRead(address);
      pc := pc + 2;
      r := Ok(());
    }

    /** `alu`: register `regA` := `regA` op `regB`, for op "ADD" or "MUL". */
    method Alu(op: string, regA: int, regB: int) returns (r: Result<(), Fault>)
      requires Valid()
      modifies reg
      ensures Valid() && Reflects(r, Semantics.Alu(old(Snapshot()), op, regA, regB))
      ensures r.Err? ==> Snapshot() == old(Snapshot())
    {
      if op == "ADD" {
        var x :- RegAt(reg[..], regA);
        var y :- RegAt(reg[..], regB);
        reg[regA] := x + y;
      } else if op == "MUL" {
        var x :- RegAt(reg[..], regA);
        var y :- RegAt(reg[..], regB);
        reg[regA] := x * y;
      } else {
        return Err(UnsupportedAluOp(op));
      }
      r := Ok(());
    }

    method Add() returns (r: Result<(), Fault>)
      requires Valid()
      modifies this, reg
      ensures Valid() && Reflects(r, Arith(old(Snapshot()), "ADD"))
      ensures r.Err? ==> Snapshot() == old(Snapshot())
    {
      var regA :- RamAt(ram[..], pc + 1);
      var regB :- RamAt(ram[..], pc + 2);
      var computed :- Alu("ADD", regA, regB);
      pc := pc + 3;
      r := Ok(());
    }

    method Mul() returns (r: Result<(), Fault>)
      requires Valid()
      modifies this, reg
      ensures Valid() && Reflects(r, Arith(old(Snapshot()), "MUL"))
      ensures r.Err? ==> Snapshot() == old(Snapshot())
    {
      var regA :- RamAt(ram[..], pc + 1);
      var regB :- RamAt(ram[..], pc + 2);
      var computed :- Alu("MUL", regA, regB);
      pc := pc + 3;
      r := Ok(());
    }

    method Hlt()
      requires Valid()
      modifies this
      ensures Valid() && Snapshot() == Semantics.Hlt(old(Snapshot()))
    {
      running := false;
    }

    method Push() returns (r: Result<(), Fault>)
      requires Valid()
      modifies this, ram
      ensures Valid() && Reflects(r, Semantics.Push(old(Snapshot())))
      ensures r.Err? ==> Snapshot() == old(Snapshot())
    {
      var address :- RamAt(ram[..], pc + 1);
      var value :- RegAt(reg[..], address);
      if stackPointer == 0 {
        return Err(StackOverflow);
      }
      stackPointer := stackPointer - 1;
      ram[stackPointer] := value;
      pc := pc + 2;
      r := Ok(());
    }

    method Pop() returns (r: Result<(), Fault>)
      requires Valid()
      modifies this, reg
      ensures Valid() && Reflects(r, Semantics.Pop(old(Snapshot())))
      ensures r.Err? ==> Snapshot() == old(Snapshot())
    {
      var address :- RamAt(ram[..], pc + 1);
      var value :- RamAt(ram[..], stackPointer);
      if !IsReg(address) {
        return Err(RegIndex(address));
      }
      reg[address] := value;
      stackPointer := stackPointer + 1;
      pc := pc + 2;
      r := Ok(());
    }

    method Call() returns (r: Result<(), Fault>)
      requires Valid()
      modifies this, ram
      ensures Valid() && Reflects(r, Semantics.Call(old(Snapshot())))
      ensures r.Err? ==> Snapshot() == old(Snapshot())
    {
      var address :- RamAt(ram[..], pc + 1);
      var value :- RegAt(reg[..], address);
      if stackPointer == 0 {
        return Err(StackOverflow);
      }
      stackPointer := stackPointer - 1;
      ram[stackPointer] := pc + 2;
      pc := value;
      r := Ok(());
    }

    method Ret() returns (r: Result<(), Fault>)
      requires Valid()
      modifies this
      ensures Valid() && Reflects(r, Semantics.Ret(old(Snapshot())))
      ensures r.Err? ==> Snapshot() == old(Snapshot())
    {
      var address :- RamAt(ram[..], stackPointer);
      stackPointer := stackPointer + 1;
      pc := address;
      r := Ok(());
    }

    /** One turn of `run`'s loop: fetch `ram[pc]`, find its handler in `ops`, call it. */
    method Step() returns (r: Result<(), Fault>)
      requires Valid()
      modifies this, reg, ram
      ensures Valid() && Reflects(r, Semantics.Step(old(Snapshot())))
      ensures r.Err? ==> Snapshot() == old(Snapshot())
    {
      var ir :- RamAt(ram[..], pc);
      var handler := Decode(ir);
      if handler.None? {
        return Err(InvalidOpcode(ir));
      }
      match handler.value {
        case LDI => r := Ldi();
        case PRN => r := Prn();
        case ADD => r := Add();
        case MUL => r := Mul();
        case HLT => Hlt(); r := Ok(());
        case PUSH => r := Push();
        case POP => r := Pop();
        case CALL => r := Call();
        case RET => r := Ret();
      }
    }

    /**
     * `run`, stopped after at most `fuel` instructions: set the running flag
     * and step until HLT clears it or an instruction faults.
     */
    method Run(fuel: nat) returns (stop: Stop)
      requires Valid()
      modifies this, reg, ram
      ensures Valid()
      ensures (Snapshot(), stop) == Semantics.Run(old(Snapshot()), fuel)
    {
      running := true;
      var left := fuel;
      while running
        invariant Valid()
        invariant RunFrom(Snapshot(), left) == Semantics.Run(old(Snapshot()), fuel)
        decreases left
      {
        if left == 0 {
          return OutOfFuel;
        }
        RunFromStep(Snapshot(), left);
        var r := Step();
        if r.Err? {
          return Faulted(r.error);
        }
        left := left - 1;
      }
      return Halted;
    }

    /**
     * The part of `load` after the file is read: parse the lines, then copy
     * the bytes into `ram` from address 0. Cells past the program keep their
     * contents; a program longer than the memory fills it and then fails.
     */
    method Load(lines: seq<string>) returns (r: Result<(), Loader.LoadError>)
      requires Valid()
      modifies ram
      ensures Valid()
      ensures Loader.ProgramOf(lines).Err? ==>
        r == Err(Loader.ProgramOf(lines).error) && ram[..] == old(ram[..])
      ensures Loader.ProgramOf(lines).Ok? ==>
        var program := Loader.ProgramOf(lines).value;
        if |program| <= RamSize then
          r.Ok? && ram[..|program|] == program && ram[|program|..] == old(ram[|program|..])
        else
          r == Err(Loader.ProgramTooLarge(|program|)) && ram[..] == program[..RamSize]
    {
      var parsed := Loader.ParseProgram(lines);
      if parsed.Err? {
        return Err(parsed.error);
      }
      var program := parsed.value;
      var address := 0;
      while address < |program|
        invariant 0 <= address <= |program| && address <= RamSize
        invariant forall k :: 0 <= k < address ==> ram[k] == program[k]
        invariant forall k :: address <= k < RamSize ==> ram[k] == old(ram[k])
      {
        if address == ram.Length {
          assert ram[..] == program[..RamSize];
          return Err(Loader.ProgramTooLarge(|program|));
        }
        ram[address] := program[address];
        address := address + 1;
      }
      assert ram[..|program|] == program;
      assert ram[|program|..] == old(ram[|program|..]);
      r := Ok(());
    }
  }
}
