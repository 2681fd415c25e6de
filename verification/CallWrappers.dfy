// The x64 call wrappers that lib/ffi.js compiles: compile_slowcall takes its
// parameters from an area of slots, compile_fastcall shifts them down over the
// receiver.
module CallWrappers {
  import opened CallMachine

  datatype Type =
    | I8 | I16 | I32 | U8 | U16 | U32 | Void | F32 | F64 | U64 | I64 | ISize | USize
    | Pointer | Buffer | Function | U32Array | Bool | String

  const MAX_ARGS := 30

  function Min(a: nat, b: nat): nat
  {
    if a < b then a else b
  }

  predicate IsFloat(t: Type)
  {
    t == F32 || t == F64
  }

  predicate NeedsUnwrap(t: Type)
  {
    t == Buffer || t == Pointer || t == U32Array || t == U64 || t == I64
  }

  // Room for the parameters past the sixth, an even number of words.
  function StackSize(params: seq<Type>): (size: nat)
    ensures size % 16 == 0
    ensures size == 0 <==> |params| <= 6
    ensures |params| > 6 ==> 8 * (|params| - 6) <= size < 8 * (|params| - 6) + 16
  {
    var n := if |params| > 6 then |params| - 6 else 0;
    (if n % 2 > 0 then n + 1 else n) * 8
  }

  // ---- compile_slowcall ----

  const PARAMETER_REGISTERS: seq<Register> := [Rdi, Rsi, Rdx, Rcx, R8, R9]

  function SlowParam(params: seq<Type>, i: nat): seq<Instruction>
    requires i < |params|
  {
    if i == 0 then if IsFloat(params[0]) then [] else [Load(Rbx, Rdi, 8)]
    else if i < 6 then [Load(Rbx, PARAMETER_REGISTERS[i], 8 * (i + 1))]
    else [Load(Rbx, Rax, 8 * (i + 1)), Store(Rax, Rsp, 8 * (i - 6))]
  }

  function SlowParams(params: seq<Type>, n: nat): seq<Instruction>
    requires n <= |params|
  {
    if n == 0 then [] else SlowParams(params, n - 1) + SlowParam(params, n - 1)
  }

  function Reserve(size: nat): seq<Instruction>
  {
    if size > 0 then [Sub(Rsp, size)] else []
  }

  function Release(size: nat): seq<Instruction>
  {
    if size > 0 then [Add(Rsp, size)] else []
  }

  function SlowResult(result: Type): seq<Instruction>
  {
    if result == Void || IsFloat(result) then [] else [Store(Rax, Rbx, 0)]
  }

  function SlowEpilogue(address: int, result: Type, size: nat): seq<Instruction>
  {
    [MovAbs(address, Rax), Call(Rax)] + SlowResult(result) + Release(size) + [Pop(Rbx), Ret]
  }

  function SlowCode(address: int, result: Type, params: seq<Type>): seq<Instruction>
  {
    [Push(Rbx), MovReg(Rdi, Rbx)] + Reserve(StackSize(params)) + SlowParams(params, Min(|params|, MAX_ARGS)) +
    SlowEpilogue(address, result, StackSize(params))
  }

  // ---- compile_fastcall ----

  // Where argument i of a fast call arrives when the receiver comes first.
  const ARGUMENT_REGISTERS: seq<Register> := [Rsi, Rdx, Rcx, R8, R9]

  function FastParam(params: seq<Type>, i: nat): seq<Instruction>
    requires i < |params|
  {
    var size := StackSize(params);
    if i < 3 then
      var from, to := ARGUMENT_REGISTERS[i], PARAMETER_REGISTERS[i];
      if params[i] == Buffer || params[i] == U32Array then [Load(from, to, 8)]
      else if params[i] == String then [Load(from, to, 0)]
      else [MovReg(from, to)]
    else if i < 5 then [MovReg(ARGUMENT_REGISTERS[i], PARAMETER_REGISTERS[i])]
    else if i == 5 then [Load(Rsp, R9, size + 8)]
    else [Load(Rsp, Rax, size + 8 + 8 * (i - 5)), Store(Rax, Rsp, 8 * (i - 6))]
  }

  function FastParams(params: seq<Type>, n: nat): seq<Instruction>
    requires n <= |params|
  {
    if n == 0 then [] else FastParams(params, n - 1) + FastParam(params, n - 1)
  }

  function FastCode(address: int, params: seq<Type>): seq<Instruction>
  {
    var size := StackSize(params);
    Reserve(size) + FastParams(params, Min(|params|, MAX_ARGS)) +
    if size > 0 then [MovAbs(address, Rax), Call(Rax), Add(Rsp, size), Ret]
    else [MovAbs(address, Rax), Jmp(Rax)]
  }

  // ---- The assembler and the compilers ----

  class Assembler {
    var code: seq<Instruction>

    constructor ()
      ensures code == []
    {
      code := [];
    }

    method Reset()
      modifies this
      ensures code == []
    {
      code := [];
    }

    method Emit(instruction: Instruction)
      modifies this
      ensures code == old(code) + [instruction]
    {
      code := code + [instruction];
    }

    // asm.call(address) and asm.jmp(address) go through rax.
    method EmitCall(address: int)
      modifies this
      ensures code == old(code) + [MovAbs(address, Rax), Call(Rax)]
    {
      code := code + [MovAbs(address, Rax)];
      code := code + [Call(Rax)];
    }

    method EmitJmp(address: int)
      modifies this
      ensures code == old(code) + [MovAbs(address, Rax), Jmp(Rax)]
    {
      code := code + [MovAbs(address, Rax)];
      code := code + [Jmp(Rax)];
    }
  }

  // One round of the parameter loop of compile_slowcall.
  method EmitSlowParam(asm: Assembler, params: seq<Type>, i: nat, stateOff: int, stackOff: int)
    returns (stateOff': int, stackOff': int)
    requires i < |params| && stateOff == 56 + stackOff && stackOff == if i <= 6 then 0 else 8 * (i - 6)
    modifies asm
    ensures asm.code == old(asm.code) + SlowParam(params, i)
    ensures stateOff' == 56 + stackOff' && stackOff' == if i + 1 <= 6 then 0 else 8 * (i + 1 - 6)
  {
    stateOff', stackOff' := stateOff, stackOff;
    if i == 0 {
      if !IsFloat(params[i]) {
        asm.Emit(Load(Rbx, Rdi, 8));
      }
    } else if i == 1 {
      asm.Emit(Load(Rbx, Rsi, 16));
    } else if i == 2 {
      asm.Emit(Load(Rbx, Rdx, 24));
    } else if i == 3 {
      asm.Emit(Load(Rbx, Rcx, 32));
    } else if i == 4 {
      asm.Emit(Load(Rbx, R8, 40));
    } else if i == 5 {
      asm.Emit(Load(Rbx, R9, 48));
    } else {
      asm.Emit(Load(Rbx, Rax, stateOff));
      asm.Emit(Store(Rax, Rsp, stackOff));
      stateOff' := stateOff + 8;
      stackOff' := stackOff + 8;
    }
  }

  method CompileSlowcall(asm: Assembler, address: int, result: Type, params: seq<Type>) returns (code: seq<Instruction>)
    modifies asm
    ensures code == asm.code == SlowCode(address, result, params)
  {
    hide SlowParam, SlowEpilogue;
    asm.Reset();
    asm.Emit(Push(Rbx));
    asm.Emit(MovReg(Rdi, Rbx));
    var size := StackSize(params);
    if size > 0 {
      asm.Emit(Sub(Rsp, size));
    }
    var stateOff := 56;
    var stackOff := 0;
    ghost var prologue := [Push(Rbx), MovReg(Rdi, Rbx)] + Reserve(size);
    for i := 0 to Min(|params|, MAX_ARGS)
      invariant asm.code == prologue + SlowParams(params, i)
      invariant stateOff == 56 + stackOff && stackOff == if i <= 6 then 0 else 8 * (i - 6)
    {
      stateOff, stackOff := EmitSlowParam(asm, params, i, stateOff, stackOff);
    }
    EmitSlowEpilogue(asm, address, result, size);
    return asm.code;
  }

  method EmitSlowEpilogue(asm: Assembler, address: int, result: Type, size: nat)
    modifies asm
    ensures asm.code == old(asm.code) + SlowEpilogue(address, result, size)
  {
    asm.EmitCall(address);
    if result != Void {
      if !IsFloat(result) {
        asm.Emit(Store(Rax, Rbx, 0));
      }
    }
    if size > 0 {
      asm.Emit(Add(Rsp, size));
    }
    asm.Emit(Pop(Rbx));
    asm.Emit(Ret);
  }

  // The code of the wrapper, or the target itself when there is nothing to do.
  datatype FastTarget = Direct(address: int) | Wrapper(code: seq<Instruction>)

  // One round of the parameter loop of compile_fastcall.
  method EmitFastParam(asm: Assembler, params: seq<Type>, i: nat, callerOff: int, stackOff: int)
    returns (callerOff': int, stackOff': int)
    requires i < |params| && callerOff == StackSize(params) + 8 + if i <= 5 then 0 else 8 * (i - 5)
    requires stackOff == if i <= 6 then 0 else 8 * (i - 6)
    modifies asm
    ensures asm.code == old(asm.code) + FastParam(params, i)
    ensures callerOff' == StackSize(params) + 8 + if i + 1 <= 5 then 0 else 8 * (i + 1 - 5)
    ensures stackOff' == if i + 1 <= 6 then 0 else 8 * (i + 1 - 6)
  {
    callerOff', stackOff' := callerOff, stackOff;
    if i < 3 {
      var from := if i == 0 then Rsi else if i == 1 then Rdx else Rcx;
      var to := if i == 0 then Rdi else if i == 1 then Rsi else Rdx;
      if params[i] == Buffer || params[i] == U32Array {
        asm.Emit(Load(from, to, 8));
      } else if params[i] == String {
        asm.Emit(Load(from, to, 0));
      } else {
        asm.Emit(MovReg(from, to));
      }
    } else if i == 3 {
      asm.Emit(MovReg(R8, Rcx));
    } else if i == 4 {
      asm.Emit(MovReg(R9, R8));
    } else if i == 5 {
      asm.Emit(Load(Rsp, R9, callerOff));
      callerOff' := callerOff + 8;
    } else {
      asm.Emit(Load(Rsp, Rax, callerOff));
      asm.Emit(Store(Rax, Rsp, stackOff));
      callerOff' := callerOff + 8;
      stackOff' := stackOff + 8;
    }
  }

  method CompileFastcall(asm: Assembler, address: int, result: Type, params: seq<Type>) returns (target: FastTarget)
    modifies asm
    ensures target ==
      if params == [] && result !in {Buffer, Pointer, U32Array, U64, I64} then Direct(address)
      else Wrapper(FastCode(address, params))
  {
    hide FastParam;
    asm.Reset();
    var size := StackSize(params);
    var callerOff := size + 8;
    var stackOff := 0;
    if |params| == 0 && !NeedsUnwrap(result) {
      return Direct(address);
    }
    if size > 0 {
      asm.Emit(Sub(Rsp, size));
    }
    for i := 0 to Min(|params|, MAX_ARGS)
      invariant asm.code == Reserve(size) + FastParams(params, i)
      invariant callerOff == size + 8 + if i <= 5 then 0 else 8 * (i - 5)
      invariant stackOff == if i <= 6 then 0 else 8 * (i - 6)
    {
      callerOff, stackOff := EmitFastParam(asm, params, i, callerOff, stackOff);
    }
    hide FastParams;
    if size > 0 {
      asm.EmitCall(address);
      asm.Emit(Add(Rsp, size));
      asm.Emit(Ret);
    } else {
      asm.EmitJmp(address);
    }
    return Wrapper(asm.code);
  }
}
