// An abstract x64 machine for the instructions that lib/ffi.js emits, and the
// System V AMD64 calling convention (sections 3.2.2 and 3.2.3 of the ABI).
module CallMachine {
  import opened Prelude

  datatype Register = Rax | Rbx | Rcx | Rdx | Rsi | Rdi | Rsp | R8 | R9

  datatype Registers = Registers(rax: int, rbx: int, rcx: int, rdx: int, rsi: int, rdi: int, rsp: int, r8: int, r9: int)
  {
    function Get(r: Register): int
    {
      match r
      case Rax => rax
      case Rbx => rbx
      case Rcx => rcx
      case Rdx => rdx
      case Rsi => rsi
      case Rdi => rdi
      case Rsp => rsp
      case R8 => r8
      case R9 => r9
    }

    function Set(r: Register, v: int): Registers
    {
      match r
      case Rax => this.(rax := v)
      case Rbx => this.(rbx := v)
      case Rcx => this.(rcx := v)
      case Rdx => this.(rdx := v)
      case Rsi => this.(rsi := v)
      case Rdi => this.(rdi := v)
      case Rsp => this.(rsp := v)
      case R8 => this.(r8 := v)
      case R9 => this.(r9 := v)
    }
  }

  lemma SetThenGet(regs: Registers, r: Register, v: int, q: Register)
    ensures regs.Set(r, v).Get(q) == if q == r then v else regs.Get(q)
  {
  }

  // Eight-byte words by address. An access to any other address faults.
  type Memory = map<int, int>

  // MovReg copies a register, Load and Store move between a register and the
  // word at a register plus an offset.
  datatype Instruction =
    | Push(r: Register)
    | Pop(r: Register)
    | MovReg(from: Register, to: Register)
    | Load(address: Register, to: Register, offset: int)
    | Store(from: Register, address: Register, offset: int)
    | Sub(r: Register, bytes: int)
    | Add(r: Register, bytes: int)
    | MovAbs(value: int, to: Register)
    | Call(r: Register)
    | Jmp(r: Register)
    | Ret

  // The machine as a callee finds it, with the address that was called.
  datatype Entry = Entry(target: int, regs: Registers, mem: Memory)

  datatype Exit = Exit(regs: Registers, mem: Memory)

  type Callee = Entry -> Exit

  // The calls made so far and, once the code has returned, the address it
  // returned to.
  datatype Machine = Machine(regs: Registers, mem: Memory, calls: seq<Entry>, returned: Option<int>)

  // One instruction. None is a fault. What a Call pushes stands for the address
  // of the instruction after it.
  function Step(callee: Callee, instruction: Instruction, m: Machine): Option<Machine>
  {
    var regs, mem := m.regs, m.mem;
    if m.returned.Some? then None
    else
      match instruction
      case Push(r) =>
        if regs.rsp - 8 !in mem then None
        else Some(m.(regs := regs.(rsp := regs.rsp - 8), mem := mem[regs.rsp - 8 := regs.Get(r)]))
      case Pop(r) =>
        if regs.rsp !in mem then None
        else Some(m.(regs := regs.(rsp := regs.rsp + 8).Set(r, mem[regs.rsp])))
      case MovReg(from, to) => Some(m.(regs := regs.Set(to, regs.Get(from))))
      case Load(address, to, offset) =>
        if regs.Get(address) + offset !in mem then None
        else Some(m.(regs := regs.Set(to, mem[regs.Get(address) + offset])))
      case Store(from, address, offset) =>
        if regs.Get(address) + offset !in mem then None
        else Some(m.(mem := mem[regs.Get(address) + offset := regs.Get(from)]))
      case Sub(r, bytes) => Some(m.(regs := regs.Set(r, regs.Get(r) - bytes)))
      case Add(r, bytes) => Some(m.(regs := regs.Set(r, regs.Get(r) + bytes)))
      case MovAbs(value, to) => Some(m.(regs := regs.Set(to, value)))
      case Call(r) =>
        if regs.rsp - 8 !in mem then None
        else
          var entry := Entry(regs.Get(r), regs.(rsp := regs.rsp - 8), mem[regs.rsp - 8 := 0]);
          var exit := callee(entry);
          Some(m.(regs := exit.regs, mem := exit.mem, calls := m.calls + [entry]))
      case Jmp(r) =>
        if regs.rsp !in mem then None
        else
          var entry := Entry(regs.Get(r), regs, mem);
          var exit := callee(entry);
          Some(Machine(exit.regs, exit.mem, m.calls + [entry], Some(mem[regs.rsp])))
      case Ret =>
        if regs.rsp !in mem then None
        else Some(m.(regs := regs.(rsp := regs.rsp + 8), returned := Some(mem[regs.rsp])))
  }

  function Run(callee: Callee, code: seq<Instruction>, m: Machine): Option<Machine>
  {
    if code == [] then Some(m)
    else
      var before := Run(callee, code[..|code| - 1], m);
      if before.None? then None else Step(callee, code[|code| - 1], before.value)
  }

  lemma {:induction false} RunConcat(callee: Callee, a: seq<Instruction>, b: seq<Instruction>, m: Machine)
    ensures Run(callee, a + b, m) ==
      if Run(callee, a, m).None? then None else Run(callee, b, Run(callee, a, m).value)
  {
    hide Step;
    if b == [] {
      assert a + b == a;
    } else {
      assert (a + b)[..|a + b| - 1] == a + b[..|b| - 1];
      RunConcat(callee, a, b[..|b| - 1], m);
    }
  }

  lemma RunNone(callee: Callee, m: Machine)
    ensures Run(callee, [], m) == Some(m)
  {
  }

  lemma RunOne(callee: Callee, instruction: Instruction, m: Machine)
    ensures Run(callee, [instruction], m) == Step(callee, instruction, m)
  {
    assert [instruction][..0] == [];
  }

  lemma RunTwo(callee: Callee, first: Instruction, second: Instruction, m: Machine)
    ensures Run(callee, [first, second], m) ==
      if Step(callee, first, m).None? then None else Step(callee, second, Step(callee, first, m).value)
  {
    assert [first, second][..1] == [first];
    RunOne(callee, first, m);
  }

  // ---- The calling convention ----

  // Where the callee finds its i-th integer or pointer parameter: in a register
  // or above the return address on the stack.
  function ParameterAddress(entry: Entry, i: nat): int
  {
    entry.regs.rsp + 8 + 8 * (i - 6)
  }

  predicate HasParameter(entry: Entry, i: nat, v: int)
  {
    if i == 0 then entry.regs.rdi == v
    else if i == 1 then entry.regs.rsi == v
    else if i == 2 then entry.regs.rdx == v
    else if i == 3 then entry.regs.rcx == v
    else if i == 4 then entry.regs.r8 == v
    else if i == 5 then entry.regs.r9 == v
    else ParameterAddress(entry, i) in entry.mem && entry.mem[ParameterAddress(entry, i)] == v
  }

  // On entry the stack above the return address is a multiple of 16.
  predicate IsAligned(entry: Entry)
  {
    (entry.regs.rsp + 8) % 16 == 0
  }

  // What a callee owes its caller: the return address is popped, the saved
  // registers are kept, and so is the stack above the argument bytes.
  ghost predicate Returns(entry: Entry, exit: Exit, argumentBytes: int, top: int)
  {
    && exit.regs.rsp == entry.regs.rsp + 8
    && exit.regs.rbx == entry.regs.rbx
    && exit.mem.Keys == entry.mem.Keys
    && forall a :: a in entry.mem && entry.regs.rsp + 8 + argumentBytes <= a < top ==> exit.mem[a] == entry.mem[a]
  }
}
