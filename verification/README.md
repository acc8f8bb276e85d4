# LS-8 CPU in Dafny

This project models the LS-8 emulator in `ls8/cpu.py`. LS-8 is an 8-bit teaching
computer with 256 bytes of RAM, eight registers, a program counter, a stack
that grows down from address 255, and a one-byte opcode per instruction. The
`CPU` class fetches `ram[pc]`, looks the byte up in its `ops` table and runs
the matching handler: LDI, PRN, ADD, MUL, HLT, PUSH, POP, CALL or RET. It keeps
doing this until HLT clears the running flag. Before that, `load` reads a
program file and copies the bytes into RAM from address 0. The file holds one
base-2 literal per line, with `#` comments allowed.

The model has five modules.

- `Wrappers` (`wrappers.dfy`): `Option` and `Result`.
- `Isa` (`isa.dfy`): the nine opcode bytes and the `ops` dispatch table, as
  `Opcode` and `Decode`.
- `Semantics` (`semantics.dfy`): the CPU state as a value, `Machine`.
  - It has one function per handler. Each returns the next machine or a
    `Fault`. Most faults are exceptions the Python code raises at that point:
    an index past the end of `ram` or `reg`, a `KeyError` on an unknown
    opcode, or an unsupported ALU operation. An index more negative than the
    list is long, below -256 for `ram` or below -8 for `reg`, also raises
    IndexError. The source raises nothing in two cases:
    - An index from -256 to -1 (-8 to -1 for `reg`) wraps to the end of the
      list. The model reports an index fault, as for every other negative index.
    - PUSH or CALL with the stack pointer at 0 writes `ram[255]`. The model
      reports `StackOverflow`.

    "## Left out" records both.
  - It also has `Step`, one turn of the run loop, and `RunFrom`/`Run`, the
    loop cut off after a number of instructions (its fuel).
  - The lemmas about whole programs are stated on these functions.
- `Loader` (`loader.dfy`): the text side of `load`.
  - It covers `str.strip`, the first `#`, and `int(text, 2)` with its
    optional sign, `0b` prefix and single underscores between digits.
  - A line becomes a byte, no byte, or a `NotBinary` error. A file becomes
    its byte sequence.
  - The `for line in lines` loop is the method `ParseProgram`.
- `Ls8` (`cpu.dfy`): the `CPU` class itself, as `Ls8.Cpu`.
  - `ram` and `reg` are arrays. `pc`, `stackPointer`, `running` and
    `printed` are fields that the handler methods update in place.
  - Every method is proved to leave the object in the state the matching
    `Semantics` function computes. When that function reports a fault, the
    method returns the same fault and changes nothing. For the faults the
    source raises, this matches the source: each Python handler raises before
    its first write. For the wrapped indices from -256 to -1 (-8 to -1 for
    `reg`) and for `StackOverflow`, the source would carry on instead. "## Left
    out" records this.
  - `Run` is the `while self.running` loop. `Load` is the parse followed by
    the copy into `ram`.

The number a PRN prints is appended to the sequence `printed`. Nothing is
written to a real output stream.

## Model

| member | source | states |
|---|---|---|
| Isa.Opcode | ls8/cpu.py:3-11 | every instruction is encoded by one byte in 0..255 |
| Isa.Decode | ls8/cpu.py:25-34 | the `ops` table: a byte selects an instruction exactly when that instruction's opcode is this byte; every other byte has no handler |
| Isa.DecodeOpcode | ls8/cpu.py:25-34 | each of the nine opcodes selects its own handler, so the table has no gaps and no clashes |
| Isa.Operands | ls8/cpu.py:3-11 | the two high bits of an opcode count its operand bytes, which are at most two |
| Semantics.Initial | ls8/cpu.py:18-24 | a new CPU is stopped, with pc 0, stack pointer 255, all 8 registers 0, all 256 cells 0 and nothing printed |
| Semantics.SetReg | ls8/cpu.py:91-92 | `ram_write` succeeds exactly when the index is a register, and fails with RegIndex otherwise; the register gets the value, and every other register and every other field stays as it was |
| Semantics.Print | ls8/cpu.py:88-89 | `ram_read` succeeds exactly when the index is a register, and fails with RegIndex otherwise; the register's value is appended to the output, and nothing else changes |
| Semantics.Ldi | ls8/cpu.py:36-40 | succeeds exactly when pc+1 and pc+2 are in RAM and ram[pc+1] names a register; it then sets only that register to ram[pc+2] and advances pc by 3 |
| Semantics.Prn | ls8/cpu.py:42-45 | succeeds exactly when ram[pc+1] is in RAM and names a register; it then appends that register's value to the output and advances pc by 2, changing nothing else |
| Semantics.Alu | ls8/cpu.py:127-136 | an op other than "ADD" or "MUL" fails with UnsupportedAluOp; otherwise it succeeds exactly when both indices are registers, and register a becomes a+b or a*b, unbounded, with every other register unchanged |
| Semantics.Arith | ls8/cpu.py:47-57 | ADD and MUL succeed exactly when both operand cells are in RAM and name registers; register a gets the sum or product and pc advances by 3 |
| Semantics.Hlt | ls8/cpu.py:59-60 | HLT clears the running flag and changes nothing else, not even pc |
| Semantics.Push | ls8/cpu.py:62-67 | succeeds exactly when the operand names a register and the stack pointer is above 0; it then lowers sp by 1, stores the register at the new top and advances pc by 2 |
| Semantics.Pop | ls8/cpu.py:69-74 | succeeds exactly when the operand names a register and sp is below 256; it then loads the register from ram[sp], raises sp by 1 and advances pc by 2 |
| Semantics.Call | ls8/cpu.py:76-81 | succeeds exactly when the operand names a register and sp is above 0; it then pushes pc+2 and jumps to the register's value |
| Semantics.Ret | ls8/cpu.py:83-86 | succeeds exactly when sp is below 256; it then pops the top of the stack into pc |
| Semantics.Execute | ls8/cpu.py:163 | running the handler `ops` binds to an instruction keeps the machine well formed and only appends to the output; it clears the running flag exactly for HLT, never reports an unknown opcode, and moves pc past the operands for every instruction other than HLT, CALL and RET |
| Semantics.Step | ls8/cpu.py:161-163 | fetching outside RAM and an opcode with no handler are faults; a successful step keeps the machine well formed, keeps the running flag unless the opcode was HLT, and only appends to the output |
| Semantics.RunFrom | ls8/cpu.py:161-163 | the loop keeps the machine well formed, and reports Halted exactly when the running flag is clear at the end; a Faulted(f) run ends on a running machine whose next step raises f, so the machine is where the failing instruction found it; OutOfFuel leaves the machine running; the output only grows |
| Semantics.Run | ls8/cpu.py:158-163 | `run` sets the running flag before looping: with no step budget it stops at once, still running; a halted run ends with the flag clear, and a faulted run ends on the machine whose next step raises the fault |
| Semantics.FallThroughLength | ls8/cpu.py:36-74 | every instruction other than HLT, CALL and RET moves pc past its opcode and exactly the number of operands its high bits announce |
| Semantics.PushThenPop | ls8/cpu.py:62-74 | PUSH r then POP r' copies the old reg[r] into r', restores sp, advances pc by 4 and leaves only the used stack slot changed in RAM |
| Semantics.CallThenRet | ls8/cpu.py:76-86 | CALL into a subroutine that is a bare RET comes back to pc+2 with sp restored; only the stack slot holding the return address differs |
| Semantics.UnknownOpcodeFaults | ls8/cpu.py:161-163 | a running machine whose pc holds a byte missing from `ops` stops at once with InvalidOpcode, unchanged |
| Semantics.HaltStops | ls8/cpu.py:59-60 | after HLT the loop executes no further instruction: the run ends Halted, with only the running flag changed |
| Semantics.RunMoreFuel | ls8/cpu.py:161-163 | once a run has halted or faulted within some number of steps, a larger step budget gives the same result |
| Semantics.RunConcat | ls8/cpu.py:161-163 | running a+b steps is running a steps and then b more from where the first run stopped |
| Semantics.MultiplyExample | ls8/cpu.py:158-163 | the program LDI R0,8; LDI R1,9; MUL R0,R1; PRN R0; HLT, loaded into a fresh CPU, prints 72 and halts after five instructions |
| Loader.Strip | ls8/cpu.py:108 | `strip` leaves no whitespace at either end and leaves text without such whitespace as it is |
| Loader.StripShape | ls8/cpu.py:108 | `strip` removes whitespace from the two ends only: the result is a contiguous slice of the line, with nothing but whitespace around it |
| Loader.FindHash | ls8/cpu.py:109-110 | `'#' in line` and `line.index('#')`: either there is no `#`, or the position holds the first one |
| Loader.ParseLine | ls8/cpu.py:107-118 | a line adds no byte exactly when it is blank after stripping or starts with `#`; any other line succeeds exactly when `int(..., 2)` accepts the stripped text before its first `#`, and adds that value |
| Loader.ParseInt2 | ls8/cpu.py:114-117 | `int(text, 2)` on stripped text: empty text is rejected; a negative result needs a leading minus, and a leading minus gives a result of at most 0. Its value is fixed by PaddedDigits for plain digit strings, leading zeros included, and by ParseRender for every signed rendered integer. PrefixedDigits covers a `0b` prefix. ForeignCharRejected covers rejection. `_` grouping is modelled in the body, but no lemma states its value |
| Loader.PaddedDigits | ls8/cpu.py:114-117 | `int(text, 2)` on any non-empty string of the digits 0 and 1, leading zeros included, returns its base-2 value |
| Loader.PrefixedDigits | ls8/cpu.py:114-117 | a `0b` or `0B` prefix before binary digits leaves the value `int(text, 2)` returns unchanged |
| Loader.PaddedLine | ls8/cpu.py:116-118 | a line of binary digits such as `00001000` adds their base-2 value |
| Loader.PaddedCommentedLine | ls8/cpu.py:109-115 | binary digits followed by ` #` and any comment, such as `01000111 # PRN R0`, add the digits' base-2 value |
| Loader.DigitFileLoads | ls8/cpu.py:105-118 | a file whose every line is binary digits loads their base-2 values, one byte per line, in file order |
| Loader.ForeignCharRejected | ls8/cpu.py:114 | on stripped text, `int(text, 2)` rejects text holding any character other than 0, 1, `_`, `b`, `B` and a sign |
| Loader.ForeignLineRejected | ls8/cpu.py:107-118 | a line whose code holds such a character stops the load with NotBinary of that code |
| Loader.ProgramOf | ls8/cpu.py:105-118 | the bytes a file yields: loading succeeds exactly when every line parses, and it adds at most one byte per line |
| Loader.ParseProgram | ls8/cpu.py:105-118 | the line loop builds exactly the bytes of the file, in order, or stops at the first bad line with its error |
| Loader.ProgramOfAppend | ls8/cpu.py:105-118 | the lines are parsed one at a time: two files in a row give the bytes of the first followed by those of the second, and the first bad line's error wins |
| Loader.ProgramOfLine | ls8/cpu.py:107-118 | a one-line file yields that line's error, no byte, or its one byte |
| Loader.SkippedLineIsInert | ls8/cpu.py:111-112 | deleting a blank or comment line anywhere in a file does not change what it loads |
| Loader.ParseRender | ls8/cpu.py:117 | `int(text, 2)` reads back every integer written in base 2, with a minus sign when negative |
| Loader.LineRoundTrip | ls8/cpu.py:116-118 | a line holding just a rendered value loads that value |
| Loader.CommentedLineRoundTrip | ls8/cpu.py:109-115 | a rendered value followed by ` #` and any comment loads that value: the comment is ignored |
| Loader.ListingRoundTrip | ls8/cpu.py:105-118 | writing a list of values one per line and loading the file gives back the list |
| Ls8.Cpu.constructor | ls8/cpu.py:18-24 | the new object is stopped, at pc 0 with stack pointer 255, and has zeroed registers and RAM, so its state is Semantics.Initial |
| Ls8.Cpu.RamWrite | ls8/cpu.py:91-92 | despite its name, it writes register `address` and fails on a non-register index without changing anything |
| Ls8.Cpu.RamRead | ls8/cpu.py:88-89 | despite its name, it prints register `address` and fails on a non-register index without changing anything |
| Ls8.Cpu.Ldi | ls8/cpu.py:36-40 | the in-place LDI ends in the state Semantics.Ldi computes, or returns its fault with the object unchanged |
| Ls8.Cpu.Prn | ls8/cpu.py:42-45 | the in-place PRN ends in the state Semantics.Prn computes, or returns its fault with the object unchanged |
| Ls8.Cpu.Alu | ls8/cpu.py:127-136 | the in-place `alu` ends in the state Semantics.Alu computes; an unsupported op or a bad register changes no register |
| Ls8.Cpu.Add | ls8/cpu.py:47-51 | the in-place ADD ends in the state Semantics.Arith computes for "ADD", or faults with the object unchanged |
| Ls8.Cpu.Mul | ls8/cpu.py:53-57 | the in-place MUL ends in the state Semantics.Arith computes for "MUL", or faults with the object unchanged |
| Ls8.Cpu.Hlt | ls8/cpu.py:59-60 | HLT clears the running flag and changes nothing else |
| Ls8.Cpu.Push | ls8/cpu.py:62-67 | the in-place PUSH ends in the state Semantics.Push computes, or faults with the object unchanged |
| Ls8.Cpu.Pop | ls8/cpu.py:69-74 | the in-place POP ends in the state Semantics.Pop computes, or faults with the object unchanged |
| Ls8.Cpu.Call | ls8/cpu.py:76-81 | the in-place CALL ends in the state Semantics.Call computes, or faults with the object unchanged |
| Ls8.Cpu.Ret | ls8/cpu.py:83-86 | the in-place RET ends in the state Semantics.Ret computes, or faults with the object unchanged |
| Ls8.Cpu.Step | ls8/cpu.py:161-163 | fetch and dispatch through the table end in the state Semantics.Step computes, or fault with the object unchanged |
| Ls8.Cpu.Run | ls8/cpu.py:158-163 | setting the running flag and stepping until it clears ends in the state and outcome Semantics.Run computes for the same step budget |
| Ls8.Cpu.Load | ls8/cpu.py:105-124 | a bad line leaves RAM untouched and returns its error; otherwise the n bytes go to ram[0..n) in order and every cell from n on keeps its old value; a program longer than 256 bytes fills RAM with its first 256 bytes and then fails |

## Left out

- Reading the program file is not modelled. That covers the `sys.argv` check
  and `open`/`readlines` (ls8/cpu.py:97-103). `Load` takes the file's lines as
  a sequence of strings.
- The `print` call inside `ram_read` is modelled as appending to `printed`. No
  output stream is modelled.
- `trace` (ls8/cpu.py:138-156) is left out. It is debugging output only, and it
  formats the `None` that `ram_read` returns.
- Python's wrap-around for slightly negative list indices is not modelled. An
  index from -256 to -1 into `ram`, or from -8 to -1 into `reg`, picks a cell
  counted from the end, and the source carries on. The model reports a fault
  instead. Indices below those ranges raise IndexError in the source, and the
  model's fault matches there.
  - a negative RAM address gives `RamIndex`;
  - a negative register index gives `RegIndex`;
  - PUSH or CALL with the stack pointer at 0 gives `StackOverflow`. The source
    would move the pointer to -1 and write `ram[255]`.
- Ls8.Cpu.Run: a step budget bounds the run, because `while self.running`
  need not terminate. Running out of budget is reported as `OutOfFuel`. That
  outcome does not exist in the source.
- Loader.ParseInt2: only stripped text is modelled, which is all that `load`
  passes to `int`. Python's `int` would also strip surrounding whitespace
  itself; the model rejects such text instead.
- Loader.ParseLine: `int(text, 2)` is modelled for ASCII digits only. Python also
  accepts other Unicode decimal digits 0 and 1, and the model rejects them.
- `ops` is a dictionary in the source and could be changed at run time. Nothing
  in the source changes it, so the model uses the fixed table `Isa.Decode`.
- ALU results are unbounded integers, as in the source (ls8/cpu.py:131, 134).
  They are not reduced modulo 256, even though a real LS-8 register holds 8 bits.
- There is no separate stack-underflow fault. POP or RET with the stack pointer
  at 256 reads `ram[256]`, and the model reports that as `RamIndex(256)`, as
  the source's IndexError would be.
- Loading more than 256 bytes writes the first 256 cells and then fails with
  `ProgramTooLarge`. That is where the source's copy loop raises IndexError.
- An unknown opcode is `InvalidOpcode`, the source's KeyError at
  ls8/cpu.py:163.
