// What the call wrappers of lib/ffi.js deliver: the emitted code, run on the
// machine, calls the target once with the right parameters and gives the
// caller its stack and registers back.
module CallWrapperTheorems {
  import opened Prelude
  import opened CallMachine
  import opened CallWrappers

  // The slot of the args area that holds parameter i; slot 0 is the result.
  function Slot(args: int, i: nat): int
  {
    args + 8 * (i + 1)
  }

  // The stack word for parameter i, from the seventh on.
  function StackWord(rsp: int, i: nat): int
  {
    rsp + 8 * (i - 6)
  }

  // The slots of the first 31 parameters exist.
  ghost predicate SlotsMapped(mem: Memory, args: int)
  {
    forall i: nat :: i < 31 ==> Slot(args, i) in mem
  }

  // The stack words of the parameters past the sixth exist.
  ghost predicate StackMapped(mem: Memory, rsp: int, n: nat)
  {
    forall i: nat :: 6 <= i < n ==> StackWord(rsp, i) in mem
  }

  // A well-behaved target with this many bytes of stack arguments, called by
  // code whose stack ends below top.
  ghost predicate ObeysConvention(callee: Callee, address: int, argumentBytes: int, top: int)
  {
    forall entry: Entry :: entry.target == address ==> Returns(entry, callee(entry), argumentBytes, top)
  }

  // ---- compile_slowcall ----

  // The wrapper is entered with the args area in rdi and room below the stack
  // pointer. Only the 32 slots and the words from rsp down need to exist: with
  // no others in memory, any other access would fault.
  ghost predicate SlowReady(m: Machine, params: seq<Type>, top: int)
  {
    var args, rsp, size := m.regs.rdi, m.regs.rsp, StackSize(params);
    && m.calls == [] && m.returned.None? && rsp < top
    && args in m.mem && SlotsMapped(m.mem, args)
    && rsp in m.mem && rsp - 8 in m.mem && rsp - 16 - size in m.mem
    && StackMapped(m.mem, rsp - 8 - size, |params|)
    && (args + 256 <= rsp - 16 - size || top <= args)
  }

  // Parameter i is in place in m, as the slot held it in s.
  predicate SlowHolds(s: Machine, m: Machine, i: nat)
  {
    var args, rsp := s.regs.rbx, s.regs.rsp;
    && Slot(args, i) in s.mem
    && if i < 6 then m.regs.Get(PARAMETER_REGISTERS[i]) == s.mem[Slot(args, i)]
       else StackWord(rsp, i) in m.mem && m.mem[StackWord(rsp, i)] == s.mem[Slot(args, i)]
  }

  // What stays while the parameters are put in place.
  ghost predicate SlowKeeps(s: Machine, m: Machine, size: nat)
  {
    && m.calls == [] && m.returned.None?
    && m.regs.rbx == s.regs.rbx && m.regs.rsp == s.regs.rsp
    && m.mem.Keys == s.mem.Keys
    && (forall a :: a in s.mem && (a < s.regs.rsp || s.regs.rsp + size <= a) ==> m.mem[a] == s.mem[a])
  }

  // After the first n parameters are in place, starting from machine s.
  ghost predicate SlowPlaced(s: Machine, m: Machine, params: seq<Type>, n: nat)
  {
    SlowKeeps(s, m, StackSize(params)) && forall i: nat :: i < n ==> SlowHolds(s, m, i)
  }

  ghost predicate SlowRoom(s: Machine, params: seq<Type>)
  {
    var args, rsp, size := s.regs.rbx, s.regs.rsp, StackSize(params);
    && s.calls == [] && s.returned.None?
    && SlotsMapped(s.mem, args) && StackMapped(s.mem, rsp, |params|)
    && (args + 256 <= rsp || rsp + size <= args)
  }

  lemma ParameterRegistersDistinct(i: nat, j: nat)
    requires i < 6 && j < 6
    ensures PARAMETER_REGISTERS[i] == PARAMETER_REGISTERS[j] <==> i == j
    ensures PARAMETER_REGISTERS[i] !in {Rax, Rbx, Rsp}
  {
  }

  lemma SlowRegisterPlaces(callee: Callee, s: Machine, m: Machine, params: seq<Type>, i: nat)
    requires i < Min(|params|, 6) && !IsFloat(params[0])
    requires SlowRoom(s, params) && SlowPlaced(s, m, params, i)
    ensures var r := Run(callee, SlowParam(params, i), m);
      r.Some? && SlowPlaced(s, r.value, params, i + 1)
  {
    hide Run;
    var args, to := s.regs.rbx, PARAMETER_REGISTERS[i];
    assert Slot(args, i) in s.mem;
    RunOne(callee, Load(Rbx, to, 8 * (i + 1)), m);
    assert SlowParam(params, i) == [Load(Rbx, to, 8 * (i + 1))];
    var v := s.mem[Slot(args, i)];
    assert m.mem[Slot(args, i)] == v;
    var m' := m.(regs := m.regs.Set(to, v));
    assert Step(callee, Load(Rbx, to, 8 * (i + 1)), m) == Some(m');
    ParameterRegistersDistinct(i, i);
    SetThenGet(m.regs, to, v, Rbx);
    SetThenGet(m.regs, to, v, Rsp);
    hide PARAMETER_REGISTERS, Step, SlowRoom, SlowParam;
    forall j: nat | j < i + 1 ensures SlowHolds(s, m', j) {
      ParameterRegistersDistinct(i, j);
      SetThenGet(m.regs, to, v, PARAMETER_REGISTERS[j]);
      assert j < i ==> SlowHolds(s, m, j);
    }
  }

  lemma SlowStackPlaces(callee: Callee, s: Machine, m: Machine, params: seq<Type>, i: nat)
    requires 6 <= i < Min(|params|, MAX_ARGS)
    requires SlowRoom(s, params) && SlowPlaced(s, m, params, i)
    ensures var r := Run(callee, SlowParam(params, i), m);
      r.Some? && SlowPlaced(s, r.value, params, i + 1)
  {
    hide Run;
    var args, rsp := s.regs.rbx, s.regs.rsp;
    assert Slot(args, i) in s.mem && StackWord(rsp, i) in s.mem;
    RunTwo(callee, Load(Rbx, Rax, 8 * (i + 1)), Store(Rax, Rsp, 8 * (i - 6)), m);
    var v := s.mem[Slot(args, i)];
    assert m.mem[Slot(args, i)] == v;
    var m' := m.(regs := m.regs.(rax := v), mem := m.mem[StackWord(rsp, i) := v]);
    assert Run(callee, SlowParam(params, i), m) == Some(m');
    hide Run, Step, SlowRoom, SlowParam;
    forall j: nat | j < i + 1 ensures SlowHolds(s, m', j) {
      if j < 6 {
        ParameterRegistersDistinct(j, j);
        SetThenGet(m.regs, Rax, v, PARAMETER_REGISTERS[j]);
      }
      assert j < i ==> SlowHolds(s, m, j);
    }
  }

  lemma SlowParamPlaces(callee: Callee, s: Machine, m: Machine, params: seq<Type>, i: nat)
    requires i < Min(|params|, MAX_ARGS) && !IsFloat(params[0])
    requires SlowRoom(s, params) && SlowPlaced(s, m, params, i)
    ensures var r := Run(callee, SlowParam(params, i), m);
      r.Some? && SlowPlaced(s, r.value, params, i + 1)
  {
    hide Run, SlowRoom, SlowPlaced;
    if i < 6 {
      SlowRegisterPlaces(callee, s, m, params, i);
    } else {
      SlowStackPlaces(callee, s, m, params, i);
    }
  }

  lemma {:induction false} SlowParamsPlace(callee: Callee, s: Machine, params: seq<Type>, n: nat)
    requires n <= Min(|params|, MAX_ARGS) && (params == [] || !IsFloat(params[0]))
    requires SlowRoom(s, params)
    ensures var r := Run(callee, SlowParams(params, n), s);
      r.Some? && SlowPlaced(s, r.value, params, n)
  {
    hide Run, Step, SlowParam;
    RunNone(callee, s);
    if n > 0 {
      hide SlowPlaced, SlowRoom;
      SlowParamsPlace(callee, s, params, n - 1);
      RunConcat(callee, SlowParams(params, n - 1), SlowParam(params, n - 1), s);
      SlowParamPlaces(callee, s, Run(callee, SlowParams(params, n - 1), s).value, params, n - 1);
    }
  }

  lemma SlowPrologueRuns(callee: Callee, m: Machine, params: seq<Type>, top: int) returns (s: Machine)
    requires SlowReady(m, params, top)
    ensures Run(callee, [Push(Rbx), MovReg(Rdi, Rbx)] + Reserve(StackSize(params)), m) == Some(s)
    ensures SlowRoom(s, params)
    ensures s.regs.rbx == m.regs.rdi && s.regs.rsp == m.regs.rsp - 8 - StackSize(params)
    ensures s.mem == m.mem[m.regs.rsp - 8 := m.regs.rbx]
  {
    hide Run;
    var size := StackSize(params);
    var pushed := m.(regs := m.regs.(rsp := m.regs.rsp - 8, rbx := m.regs.rdi),
                     mem := m.mem[m.regs.rsp - 8 := m.regs.rbx]);
    RunTwo(callee, Push(Rbx), MovReg(Rdi, Rbx), m);
    RunConcat(callee, [Push(Rbx), MovReg(Rdi, Rbx)], Reserve(size), m);
    s := pushed.(regs := pushed.regs.(rsp := pushed.regs.rsp - size));
    ReserveRuns(callee, pushed, size);
  }

  // The machine as the target of the slow wrapper finds it.
  function SlowEntry(m: Machine, address: int): Entry
  {
    Entry(address, m.regs.(rax := address, rsp := m.regs.rsp - 8), m.mem[m.regs.rsp - 8 := 0])
  }

  lemma CallRuns(callee: Callee, m: Machine, address: int)
    requires m.returned.None? && m.calls == [] && m.regs.rsp - 8 in m.mem
    ensures var entry := SlowEntry(m, address);
      Run(callee, [MovAbs(address, Rax), CallMachine.Call(Rax)], m) ==
        Some(Machine(callee(entry).regs, callee(entry).mem, [entry], None))
  {
    hide Run;
    var entry, moved := SlowEntry(m, address), m.(regs := m.regs.(rax := address));
    assert Step(callee, MovAbs(address, Rax), m) == Some(moved);
    assert [] + [entry] == [entry];
    assert Step(callee, CallMachine.Call(Rax), moved) ==
      Some(Machine(callee(entry).regs, callee(entry).mem, [entry], None));
    hide Step;
    RunTwo(callee, MovAbs(address, Rax), CallMachine.Call(Rax), m);
  }

  predicate StoresResult(result: Type)
  {
    result != Void && result != F32 && result != F64
  }

  lemma SlowEpilogueRuns(callee: Callee, m: Machine, address: int, result: Type, size: nat, args: int, top: int)
    returns (f: Machine)
    requires m.returned.None? && m.calls == [] && m.regs.rsp - 8 in m.mem && m.regs.rbx == args
    requires args in m.mem && m.regs.rsp + size in m.mem && m.regs.rsp + size + 8 in m.mem
    requires m.regs.rsp + size + 8 < top && (args < m.regs.rsp || top <= args)
    requires ObeysConvention(callee, address, size, top)
    ensures var entry := SlowEntry(m, address);
      && Run(callee, SlowEpilogue(address, result, size), m) == Some(f)
      && f.calls == [entry]
      && f.returned == Some(m.mem[m.regs.rsp + size + 8])
      && f.regs.rbx == m.mem[m.regs.rsp + size] && f.regs.rsp == m.regs.rsp + size + 16
      && f.mem == if StoresResult(result) then callee(entry).mem[args := callee(entry).regs.rax] else callee(entry).mem
  {
    var entry := SlowEntry(m, address);
    var exit := callee(entry);
    assert Returns(entry, exit, size, top);
    assert exit.mem[m.regs.rsp + size] == m.mem[m.regs.rsp + size];
    assert exit.mem[m.regs.rsp + size + 8] == m.mem[m.regs.rsp + size + 8];
    hide ObeysConvention;
    var called := Machine(exit.regs, exit.mem, [entry], None);
    var stored := if StoresResult(result) then called.(mem := exit.mem[args := exit.regs.rax]) else called;
    var released := stored.(regs := stored.regs.(rsp := stored.regs.rsp + size));
    f := Machine(released.regs.(rsp := released.regs.rsp + 16, rbx := m.mem[m.regs.rsp + size]),
                 stored.mem, [entry], Some(m.mem[m.regs.rsp + size + 8]));
    LeaveRuns(callee, released);
    hide Returns, Run, Step;
    CallRuns(callee, m, address);
    ResultRuns(callee, called, result, args);
    ReleaseRuns(callee, stored, size);
    var call := [MovAbs(address, Rax), CallMachine.Call(Rax)];
    RunConcat(callee, call, SlowResult(result), m);
    RunConcat(callee, call + SlowResult(result), Release(size), m);
    RunConcat(callee, call + SlowResult(result) + Release(size), [Pop(Rbx), Ret], m);
  }

  lemma LeaveRuns(callee: Callee, m: Machine)
    requires m.returned.None? && m.regs.rsp in m.mem && m.regs.rsp + 8 in m.mem
    ensures Run(callee, [Pop(Rbx), Ret], m) ==
      Some(m.(regs := m.regs.(rsp := m.regs.rsp + 16, rbx := m.mem[m.regs.rsp]),
              returned := Some(m.mem[m.regs.rsp + 8])))
  {
    hide Run;
    RunTwo(callee, Pop(Rbx), Ret, m);
  }

  lemma ResultRuns(callee: Callee, m: Machine, result: Type, args: int)
    requires m.returned.None? && m.regs.rbx == args && args in m.mem
    ensures Run(callee, SlowResult(result), m) ==
      Some(if StoresResult(result) then m.(mem := m.mem[args := m.regs.rax]) else m)
  {
    hide Run;
    RunNone(callee, m);
    if StoresResult(result) {
      RunOne(callee, Store(Rax, Rbx, 0), m);
    }
  }

  lemma ReleaseRuns(callee: Callee, m: Machine, size: nat)
    requires m.returned.None?
    ensures Run(callee, Release(size), m) == Some(m.(regs := m.regs.(rsp := m.regs.rsp + size)))
  {
    hide Run;
    RunNone(callee, m);
    if size > 0 {
      RunOne(callee, Add(Rsp, size), m);
    }
  }

  predicate NoFloats(params: seq<Type>)
  {
    forall i :: 0 <= i < |params| ==> params[i] != F32 && params[i] != F64
  }

  // The machine when all parameters of the slow wrapper are in place.
  lemma SlowPlaces(callee: Callee, m: Machine, params: seq<Type>, top: int) returns (s: Machine, p: Machine)
    requires SlowReady(m, params, top) && (params == [] || !IsFloat(params[0]))
    ensures var n, size := Min(|params|, MAX_ARGS), StackSize(params);
      && Run(callee, [Push(Rbx), MovReg(Rdi, Rbx)] + Reserve(size) + SlowParams(params, n), m) == Some(p)
      && SlowPlaced(s, p, params, n)
      && s.regs.rbx == m.regs.rdi && s.regs.rsp == m.regs.rsp - 8 - size
      && s.mem == m.mem[m.regs.rsp - 8 := m.regs.rbx]
  {
    hide Step, SlowParams, SlowPlaced;
    var n, size := Min(|params|, MAX_ARGS), StackSize(params);
    s := SlowPrologueRuns(callee, m, params, top);
    hide SlowReady;
    SlowParamsPlace(callee, s, params, n);
    hide SlowRoom;
    RunConcat(callee, [Push(Rbx), MovReg(Rdi, Rbx)] + Reserve(size), SlowParams(params, n), m);
    p := Run(callee, SlowParams(params, n), s).value;
  }

  lemma SlowcallRuns(callee: Callee, m: Machine, address: int, result: Type, params: seq<Type>, top: int)
    returns (f: Machine, s: Machine, p: Machine)
    requires SlowReady(m, params, top) && (params == [] || !IsFloat(params[0]))
    requires ObeysConvention(callee, address, StackSize(params), top)
    ensures SlowPlaced(s, p, params, Min(|params|, MAX_ARGS))
    ensures s.regs.rbx == m.regs.rdi && s.regs.rsp == m.regs.rsp - 8 - StackSize(params)
    ensures s.mem == m.mem[m.regs.rsp - 8 := m.regs.rbx]
    ensures var entry := SlowEntry(p, address);
      && Run(callee, SlowCode(address, result, params), m) == Some(f)
      && f.calls == [entry]
      && f.mem == (if StoresResult(result) then callee(entry).mem[m.regs.rdi := callee(entry).regs.rax]
                   else callee(entry).mem)
      && f.regs.rbx == m.regs.rbx && f.regs.rsp == m.regs.rsp + 8
      && m.regs.rsp in m.mem && f.returned == Some(m.mem[m.regs.rsp])
  {
    hide ObeysConvention, Run, Step, SlowParams, SlowEpilogue, SlowHolds, StoresResult, IsFloat;
    var n, size := Min(|params|, MAX_ARGS), StackSize(params);
    s, p := SlowPlaces(callee, m, params, top);
    RunConcat(callee, [Push(Rbx), MovReg(Rdi, Rbx)] + Reserve(size) + SlowParams(params, n),
              SlowEpilogue(address, result, size), m);
    f := SlowEpilogueRuns(callee, p, address, result, size, m.regs.rdi, top);
  }

  // The callee finds the memory as the caller left it, outside the stack that
  // the wrapper uses from this address on.
  ghost predicate Undisturbed(m: Machine, entry: Entry, bottom: int)
  {
    forall a :: a in m.mem && (a < bottom || m.regs.rsp <= a) ==> a in entry.mem && entry.mem[a] == m.mem[a]
  }

  // The word at this place of an args area, after the one for the result.
  predicate SlotIs(mem: Memory, args: int, i: nat, v: int)
  {
    args + 8 * (i + 1) in mem ==> mem[args + 8 * (i + 1)] == v
  }

  // The callee finds as parameter i what the args area holds for it.
  predicate PassesSlot(entry: Entry, i: nat, mem: Memory, args: int)
  {
    args + 8 * (i + 1) in mem && HasParameter(entry, i, mem[args + 8 * (i + 1)])
  }

  // For every list of integer and pointer parameters: the slow wrapper runs
  // without a fault and calls the target once, on an aligned stack, with
  // parameter i taken from slot i + 1; it stores a result in slot 0, restores
  // rbx and rsp, and returns to its caller.
  lemma SlowcallDelivers(callee: Callee, m: Machine, address: int, result: Type, params: seq<Type>, top: int)
    returns (f: Machine, entry: Entry)
    requires SlowReady(m, params, top) && NoFloats(params)
    requires ObeysConvention(callee, address, StackSize(params), top)
    ensures Run(callee, SlowCode(address, result, params), m) == Some(f)
    ensures f.calls == [entry] && entry.target == address
    ensures forall i: nat :: i < |params| && i < 30 ==> PassesSlot(entry, i, m.mem, m.regs.rdi)
    ensures IsAligned(entry) <==> (m.regs.rsp + 8) % 16 == 0
    ensures f.mem == if StoresResult(result) then callee(entry).mem[m.regs.rdi := callee(entry).regs.rax]
                     else callee(entry).mem
    ensures Undisturbed(m, entry, m.regs.rsp - 16 - StackSize(params))
    ensures f.regs.rbx == m.regs.rbx && f.regs.rsp == m.regs.rsp + 8
    ensures m.regs.rsp in m.mem && f.returned == Some(m.mem[m.regs.rsp])
  {
    assert params == [] || !IsFloat(params[0]);
    hide Undisturbed, PassesSlot, SlowReady, SlowPlaced, SlowEntry;
    hide ObeysConvention, Run, SlowCode, NoFloats, StoresResult, IsFloat, IsAligned;
    var s, p;
    f, s, p := SlowcallRuns(callee, m, address, result, params, top);
    entry := SlowEntry(p, address);
    SlowEntryAligned(p, address, m.regs.rsp, StackSize(params));
    SlowEntryHasAll(m, s, p, address, params, top);
    SlowUndisturbed(m, s, p, address, params);
  }

  lemma SlowUndisturbed(m: Machine, s: Machine, p: Machine, address: int, params: seq<Type>)
    requires SlowPlaced(s, p, params, Min(|params|, MAX_ARGS))
    requires s.regs.rsp == m.regs.rsp - 8 - StackSize(params) && s.mem == m.mem[m.regs.rsp - 8 := m.regs.rbx]
    ensures Undisturbed(m, SlowEntry(p, address), m.regs.rsp - 16 - StackSize(params))
  {
    hide SlowHolds;
  }

  lemma SlowEntryHasAll(m: Machine, s: Machine, p: Machine, address: int, params: seq<Type>, top: int)
    requires SlowReady(m, params, top) && SlowPlaced(s, p, params, Min(|params|, MAX_ARGS))
    requires s.regs.rbx == m.regs.rdi && s.mem == m.mem[m.regs.rsp - 8 := m.regs.rbx]
    ensures forall i: nat :: i < |params| && i < 30 ==> PassesSlot(SlowEntry(p, address), i, m.mem, m.regs.rdi)
  {
    hide HasParameter, SlowHolds;
    forall i: nat | i < |params| && i < 30 ensures PassesSlot(SlowEntry(p, address), i, m.mem, m.regs.rdi) {
      SlotKept(m, params, top, i);
      SlowEntryHas(s, p, address, i);
    }
  }

  lemma SlowEntryAligned(p: Machine, address: int, rsp: int, size: nat)
    requires size % 16 == 0 && p.regs.rsp == rsp - 8 - size
    ensures IsAligned(SlowEntry(p, address)) <==> (rsp + 8) % 16 == 0
  {
  }

  lemma SlotKept(m: Machine, params: seq<Type>, top: int, i: nat)
    requires SlowReady(m, params, top) && i < 30
    ensures Slot(m.regs.rdi, i) in m.mem && Slot(m.regs.rdi, i) != m.regs.rsp - 8
  {
  }

  lemma SlowEntryHas(s: Machine, p: Machine, address: int, i: nat)
    requires SlowHolds(s, p, i) && p.regs.rsp == s.regs.rsp
    ensures HasParameter(SlowEntry(p, address), i, s.mem[Slot(s.regs.rbx, i)])
  {
    if i < 6 {
      ParameterRegistersDistinct(i, i);
    }
  }

  // ---- compile_fastcall ----

  // Where argument k of the fast call lies, from the sixth on, seen from below
  // the reserved stack.
  function ArgumentWord(rsp: int, size: int, k: int): int
  {
    rsp + size + 8 + 8 * (k - 5)
  }

  // Argument k of a fast call whose receiver is in rdi.
  function FastArgument(s: Machine, size: int, k: nat): int
  {
    if k == 0 then s.regs.rsi
    else if k == 1 then s.regs.rdx
    else if k == 2 then s.regs.rcx
    else if k == 3 then s.regs.r8
    else if k == 4 then s.regs.r9
    else if ArgumentWord(s.regs.rsp, size, k) in s.mem then s.mem[ArgumentWord(s.regs.rsp, size, k)]
    else 0
  }

  // What the target should see of it: the data pointer of a typed array, the
  // characters of a string, or the argument itself. Only the first three
  // parameters are unpacked.
  function Unpacked(mem: Memory, params: seq<Type>, k: nat, v: int): int
    requires k < |params|
  {
    if k < 3 && (params[k] == Buffer || params[k] == U32Array) then if v + 8 in mem then mem[v + 8] else 0
    else if k < 3 && params[k] == String then if v in mem then mem[v] else 0
    else v
  }

  predicate CanUnpack(mem: Memory, params: seq<Type>, k: nat, v: int)
    requires k < |params|
  {
    && (k < 3 && (params[k] == Buffer || params[k] == U32Array) ==> v + 8 in mem)
    && (k < 3 && params[k] == String ==> v in mem)
  }

  ghost predicate FastRoom(s: Machine, params: seq<Type>)
  {
    var rsp, size := s.regs.rsp, StackSize(params);
    && s.calls == [] && s.returned.None?
    && (forall k: nat :: k < |params| ==> CanUnpack(s.mem, params, k, FastArgument(s, size, k)))
    && (forall k: nat {:trigger ArgumentWord(rsp, size, k)} :: 5 <= k < |params| ==>
          ArgumentWord(rsp, size, k) in s.mem)
    && StackMapped(s.mem, rsp, |params|)
  }

  predicate FastHolds(s: Machine, m: Machine, params: seq<Type>, i: nat)
    requires i < |params|
  {
    var v := Unpacked(s.mem, params, i, FastArgument(s, StackSize(params), i));
    if i < 6 then m.regs.Get(PARAMETER_REGISTERS[i]) == v
    else StackWord(s.regs.rsp, i) in m.mem && m.mem[StackWord(s.regs.rsp, i)] == v
  }

  // What stays while the parameters are shifted: later arguments are not
  // overwritten before they are read.
  ghost predicate FastKeeps(s: Machine, m: Machine, size: nat, n: nat)
  {
    && m.calls == [] && m.returned.None?
    && m.regs.rbx == s.regs.rbx && m.regs.rsp == s.regs.rsp
    && m.mem.Keys == s.mem.Keys
    && (n <= 6 ==> m.mem == s.mem)
    && (forall a :: a in s.mem && (a < s.regs.rsp || s.regs.rsp + size <= a) ==> m.mem[a] == s.mem[a])
    && (forall k: nat :: n <= k < 5 ==> m.regs.Get(ARGUMENT_REGISTERS[k]) == s.regs.Get(ARGUMENT_REGISTERS[k]))
  }

  ghost predicate FastPlaced(s: Machine, m: Machine, params: seq<Type>, n: nat)
    requires n <= |params|
  {
    FastKeeps(s, m, StackSize(params), n) && forall i: nat :: i < n ==> FastHolds(s, m, params, i)
  }

  lemma ArgumentRegistersDistinct(i: nat, k: nat)
    requires i < 6 && k < 5
    ensures ARGUMENT_REGISTERS[k] == PARAMETER_REGISTERS[i] <==> k + 1 == i
  {
  }

  // A register parameter: written after its source was read, before its old
  // value is needed again.
  lemma FastRegisterPlaces(s: Machine, m: Machine, params: seq<Type>, i: nat, v: int)
    requires i < Min(|params|, 6) && FastPlaced(s, m, params, i)
    requires v == Unpacked(s.mem, params, i, FastArgument(s, StackSize(params), i))
    ensures FastPlaced(s, m.(regs := m.regs.Set(PARAMETER_REGISTERS[i], v)), params, i + 1)
  {
    var to := PARAMETER_REGISTERS[i];
    var m' := m.(regs := m.regs.Set(to, v));
    ParameterRegistersDistinct(i, i);
    SetThenGet(m.regs, to, v, Rbx);
    SetThenGet(m.regs, to, v, Rsp);
    hide PARAMETER_REGISTERS, ARGUMENT_REGISTERS, Unpacked, FastArgument;
    forall j: nat | j < i + 1 ensures FastHolds(s, m', params, j) {
      ParameterRegistersDistinct(i, j);
      SetThenGet(m.regs, to, v, PARAMETER_REGISTERS[j]);
      assert j < i ==> FastHolds(s, m, params, j);
    }
    forall k: nat | i + 1 <= k < 5
      ensures m'.regs.Get(ARGUMENT_REGISTERS[k]) == s.regs.Get(ARGUMENT_REGISTERS[k])
    {
      ArgumentRegistersDistinct(i, k);
      SetThenGet(m.regs, to, v, ARGUMENT_REGISTERS[k]);
    }
  }

  lemma UnpackRuns(callee: Callee, m: Machine, params: seq<Type>, i: nat)
    requires i < Min(|params|, 3) && m.returned.None?
    requires CanUnpack(m.mem, params, i, m.regs.Get(ARGUMENT_REGISTERS[i]))
    ensures var v := Unpacked(m.mem, params, i, m.regs.Get(ARGUMENT_REGISTERS[i]));
      Run(callee, FastParam(params, i), m) == Some(m.(regs := m.regs.Set(PARAMETER_REGISTERS[i], v)))
  {
    hide Run;
    var from, to := ARGUMENT_REGISTERS[i], PARAMETER_REGISTERS[i];
    var code := FastParam(params, i);
    assert code == [code[0]] && code[0] in {Load(from, to, 8), Load(from, to, 0), MovReg(from, to)};
    RunOne(callee, code[0], m);
    hide PARAMETER_REGISTERS, ARGUMENT_REGISTERS, Run, StackSize;
  }

  lemma SixthRuns(callee: Callee, s: Machine, m: Machine, params: seq<Type>)
    requires 5 < |params| && m.returned.None? && m.mem == s.mem && m.regs.rsp == s.regs.rsp
    requires ArgumentWord(s.regs.rsp, StackSize(params), 5) in s.mem
    ensures Run(callee, FastParam(params, 5), m) ==
      Some(m.(regs := m.regs.Set(PARAMETER_REGISTERS[5], FastArgument(s, StackSize(params), 5))))
  {
    hide Run;
    RunOne(callee, Load(Rsp, R9, StackSize(params) + 8), m);
  }

  lemma MovedRuns(callee: Callee, m: Machine, params: seq<Type>, i: nat)
    requires 3 <= i < 5 && i < |params| && m.returned.None?
    ensures Run(callee, FastParam(params, i), m) ==
      Some(m.(regs := m.regs.Set(PARAMETER_REGISTERS[i], m.regs.Get(ARGUMENT_REGISTERS[i]))))
  {
    hide Run;
    RunOne(callee, MovReg(ARGUMENT_REGISTERS[i], PARAMETER_REGISTERS[i]), m);
  }

  lemma FastRegisterRuns(callee: Callee, s: Machine, m: Machine, params: seq<Type>, i: nat)
    requires i < Min(|params|, 6) && FastRoom(s, params) && FastPlaced(s, m, params, i)
    ensures var v := Unpacked(s.mem, params, i, FastArgument(s, StackSize(params), i));
      Run(callee, FastParam(params, i), m) == Some(m.(regs := m.regs.Set(PARAMETER_REGISTERS[i], v)))
  {
    hide FastHolds, FastParam, Run, Step;
    assert CanUnpack(s.mem, params, i, FastArgument(s, StackSize(params), i));
    if i == 5 {
      assert ArgumentWord(s.regs.rsp, StackSize(params), 5) in s.mem;
      hide FastRoom;
      SixthRuns(callee, s, m, params);
    } else {
      assert m.regs.Get(ARGUMENT_REGISTERS[i]) == s.regs.Get(ARGUMENT_REGISTERS[i]);
      hide FastRoom, FastPlaced;
      if i < 3 {
        hide Unpacked, CanUnpack;
        UnpackRuns(callee, m, params, i);
      } else {
        MovedRuns(callee, m, params, i);
      }
    }
  }

  lemma FastStackPlaces(callee: Callee, s: Machine, m: Machine, params: seq<Type>, i: nat)
    requires 6 <= i < |params| && FastRoom(s, params) && FastPlaced(s, m, params, i)
    ensures var r := Run(callee, FastParam(params, i), m);
      r.Some? && FastPlaced(s, r.value, params, i + 1)
  {
    hide Run;
    var rsp, size := s.regs.rsp, StackSize(params);
    assert ArgumentWord(rsp, size, i) in s.mem && StackWord(rsp, i) in s.mem;
    var v := s.mem[ArgumentWord(rsp, size, i)];
    assert m.mem[ArgumentWord(rsp, size, i)] == v;
    RunTwo(callee, Load(Rsp, Rax, size + 8 + 8 * (i - 5)), Store(Rax, Rsp, 8 * (i - 6)), m);
    var m' := m.(regs := m.regs.(rax := v), mem := m.mem[StackWord(rsp, i) := v]);
    assert Run(callee, FastParam(params, i), m) == Some(m');
    hide Run, Step, FastRoom, FastParam;
    forall j: nat | j < i + 1 ensures FastHolds(s, m', params, j) {
      if j < 6 {
        ParameterRegistersDistinct(j, j);
        SetThenGet(m.regs, Rax, v, PARAMETER_REGISTERS[j]);
      }
      assert j < i ==> FastHolds(s, m, params, j);
    }
  }

  lemma {:induction false} FastParamsPlace(callee: Callee, s: Machine, params: seq<Type>, n: nat)
    requires n <= |params| && FastRoom(s, params)
    ensures var r := Run(callee, FastParams(params, n), s);
      r.Some? && FastPlaced(s, r.value, params, n)
  {
    hide Run, FastPlaced, FastRoom, Step, FastParam, Unpacked, FastArgument, StackSize;
    RunNone(callee, s);
    if n == 0 {
      FastStart(s, params);
    } else {
      var i := n - 1;
      FastParamsPlace(callee, s, params, i);
      RunConcat(callee, FastParams(params, i), FastParam(params, i), s);
      var m := Run(callee, FastParams(params, i), s).value;
      if i < 6 {
        FastRegisterRuns(callee, s, m, params, i);
        FastRegisterPlaces(s, m, params, i, Unpacked(s.mem, params, i, FastArgument(s, StackSize(params), i)));
      } else {
        FastStackPlaces(callee, s, m, params, i);
      }
    }
  }

  lemma FastStart(s: Machine, params: seq<Type>)
    requires FastRoom(s, params)
    ensures FastPlaced(s, s, params, 0)
  {
  }

  function Reserved(m: Machine, params: seq<Type>): Machine
  {
    m.(regs := m.regs.(rsp := m.regs.rsp - StackSize(params)))
  }

  // The wrapper is entered by a fast call: its arguments can be read and
  // unpacked and there is room below the stack pointer.
  ghost predicate FastReady(m: Machine, params: seq<Type>, top: int)
  {
    && FastRoom(Reserved(m, params), params)
    && m.regs.rsp in m.mem && m.regs.rsp < top
    && (StackSize(params) > 0 ==> m.regs.rsp - StackSize(params) - 8 in m.mem)
  }

  // Parameter i as the target should see it.
  function FastParameter(m: Machine, params: seq<Type>, i: nat): int
    requires i < |params|
  {
    Unpacked(m.mem, params, i, FastArgument(Reserved(m, params), StackSize(params), i))
  }

  lemma ReserveRuns(callee: Callee, m: Machine, size: nat)
    requires m.returned.None?
    ensures Run(callee, Reserve(size), m) == Some(m.(regs := m.regs.(rsp := m.regs.rsp - size)))
  {
    hide Run;
    RunNone(callee, m);
    if size > 0 {
      RunOne(callee, Sub(Rsp, size), m);
    }
  }

  // The call at the end of the wrapper: with stack parameters a call that comes
  // back to release the stack, else a jump.
  function FastEntry(p: Machine, address: int, size: nat): Entry
  {
    if size > 0 then SlowEntry(p, address) else Entry(address, p.regs.(rax := address), p.mem)
  }

  function FastEnd(address: int, size: nat): seq<Instruction>
  {
    if size > 0 then [MovAbs(address, Rax), CallMachine.Call(Rax), Add(Rsp, size), Ret]
    else [MovAbs(address, Rax), Jmp(Rax)]
  }

  // The machine after the end of the wrapper.
  function FastExit(callee: Callee, p: Machine, address: int, size: nat): Machine
    requires p.regs.rsp + size in p.mem
  {
    var entry := FastEntry(p, address, size);
    var exit := callee(entry);
    Machine(exit.regs.(rsp := p.regs.rsp + size + 8), exit.mem, [entry], Some(p.mem[p.regs.rsp + size]))
  }

  lemma CallEndRuns(callee: Callee, p: Machine, address: int, size: nat, top: int)
    requires p.returned.None? && p.calls == [] && p.regs.rsp + size in p.mem && p.regs.rsp + size < top
    requires size > 0 && p.regs.rsp - 8 in p.mem
    requires Returns(SlowEntry(p, address), callee(SlowEntry(p, address)), size, top)
    ensures Run(callee, FastEnd(address, size), p) == Some(FastExit(callee, p, address, size))
  {
    hide Run;
    var call, leave := [MovAbs(address, Rax), CallMachine.Call(Rax)], [Add(Rsp, size), Ret];
    var entry := SlowEntry(p, address);
    var exit := callee(entry);
    assert exit.mem[p.regs.rsp + size] == p.mem[p.regs.rsp + size];
    RunTwo(callee, Add(Rsp, size), Ret, Machine(exit.regs, exit.mem, [entry], None));
    hide Run;
    CallRuns(callee, p, address);
    RunConcat(callee, call, leave, p);
    assert call + leave == FastEnd(address, size);
  }

  lemma JumpEndRuns(callee: Callee, p: Machine, address: int, top: int)
    requires p.returned.None? && p.calls == [] && p.regs.rsp in p.mem
    requires Returns(FastEntry(p, address, 0), callee(FastEntry(p, address, 0)), 0, top)
    ensures Run(callee, FastEnd(address, 0), p) == Some(FastExit(callee, p, address, 0))
  {
    hide Run;
    RunTwo(callee, MovAbs(address, Rax), Jmp(Rax), p);
    assert [] + [FastEntry(p, address, 0)] == [FastEntry(p, address, 0)];
  }

  lemma FastEndRuns(callee: Callee, p: Machine, address: int, size: nat, top: int)
    requires p.returned.None? && p.calls == [] && p.regs.rsp + size in p.mem && p.regs.rsp + size < top
    requires size > 0 ==> p.regs.rsp - 8 in p.mem
    requires ObeysConvention(callee, address, size, top)
    ensures Run(callee, FastEnd(address, size), p) == Some(FastExit(callee, p, address, size))
    ensures callee(FastEntry(p, address, size)).regs.rbx == p.regs.rbx
  {
    var entry := FastEntry(p, address, size);
    assert Returns(entry, callee(entry), size, top);
    hide ObeysConvention, Run, FastEnd, FastExit;
    if size > 0 {
      CallEndRuns(callee, p, address, size, top);
    } else {
      JumpEndRuns(callee, p, address, top);
    }
  }

  lemma FastcallRuns(callee: Callee, m: Machine, address: int, params: seq<Type>, top: int)
    returns (f: Machine, p: Machine)
    requires FastReady(m, params, top)
    requires ObeysConvention(callee, address, StackSize(params), top)
    ensures FastPlaced(Reserved(m, params), p, params, Min(|params|, MAX_ARGS))
    ensures var entry := FastEntry(p, address, StackSize(params));
      && Run(callee, FastCode(address, params), m) == Some(f)
      && f.calls == [entry]
      && f.regs.rbx == m.regs.rbx && f.regs.rsp == m.regs.rsp + 8 && f.regs.rax == callee(entry).regs.rax
      && f.mem == callee(entry).mem
      && m.regs.rsp in m.mem && f.returned == Some(m.mem[m.regs.rsp])
  {
    hide ObeysConvention, Run, FastParams, FastHolds, FastRoom, FastEntry;
    var n, size, s := Min(|params|, MAX_ARGS), StackSize(params), Reserved(m, params);
    assert m.returned.None? by { FastRoomStarts(s, params); }
    ReserveRuns(callee, m, size);
    FastParamsPlace(callee, s, params, n);
    p := Run(callee, FastParams(params, n), s).value;
    FastEndRuns(callee, p, address, size, top);
    f := FastExit(callee, p, address, size);
    RunConcat(callee, Reserve(size), FastParams(params, n), m);
    RunConcat(callee, Reserve(size) + FastParams(params, n), FastEnd(address, size), m);
  }

  lemma FastRoomStarts(s: Machine, params: seq<Type>)
    requires FastRoom(s, params)
    ensures s.returned.None? && s.calls == []
  {
  }

  // For every list of integer, pointer, array and string parameters: the fast
  // wrapper calls the target once with every argument shifted down by one and
  // unpacked, and returns to its caller with rsp and the result in place. The
  // target finds an aligned stack exactly when there are no stack parameters.
  lemma FastcallDelivers(callee: Callee, m: Machine, address: int, params: seq<Type>, top: int)
    returns (f: Machine, entry: Entry)
    requires FastReady(m, params, top) && NoFloats(params)
    requires ObeysConvention(callee, address, StackSize(params), top)
    ensures Run(callee, FastCode(address, params), m) == Some(f)
    ensures f.calls == [entry] && entry.target == address
    ensures forall i: nat :: i < |params| && i < 30 ==> HasParameter(entry, i, FastParameter(m, params, i))
    ensures (m.regs.rsp + 8) % 16 == 0 ==> (IsAligned(entry) <==> |params| <= 6)
    ensures Undisturbed(m, entry, m.regs.rsp - 8 - StackSize(params)) && f.mem == callee(entry).mem
    ensures f.regs.rbx == m.regs.rbx && f.regs.rsp == m.regs.rsp + 8 && f.regs.rax == callee(entry).regs.rax
    ensures m.regs.rsp in m.mem && f.returned == Some(m.mem[m.regs.rsp])
  {
    hide ObeysConvention, Run, FastCode, FastReady, FastHolds, HasParameter, NoFloats, FastParameter;
    var p;
    f, p := FastcallRuns(callee, m, address, params, top);
    entry := FastEntry(p, address, StackSize(params));
    FastEntryHasAll(m, p, address, params);
    FastUndisturbed(m, p, address, params);
    FastAlignment(m.regs.rsp, StackSize(params));
  }

  lemma FastAlignment(rsp: int, size: nat)
    requires size % 16 == 0
    ensures (rsp + 8) % 16 == 0 ==> (rsp - size) % 16 != 0
  {
  }

  lemma FastUndisturbed(m: Machine, p: Machine, address: int, params: seq<Type>)
    requires FastPlaced(Reserved(m, params), p, params, Min(|params|, MAX_ARGS))
    ensures Undisturbed(m, FastEntry(p, address, StackSize(params)), m.regs.rsp - 8 - StackSize(params))
  {
    hide FastHolds;
  }

  lemma FastEntryHasAll(m: Machine, p: Machine, address: int, params: seq<Type>)
    requires FastPlaced(Reserved(m, params), p, params, Min(|params|, MAX_ARGS))
    ensures forall i: nat :: i < Min(|params|, MAX_ARGS) ==>
      HasParameter(FastEntry(p, address, StackSize(params)), i, FastParameter(m, params, i))
  {
    hide Unpacked, FastArgument;
    forall i: nat | i < Min(|params|, MAX_ARGS)
      ensures HasParameter(FastEntry(p, address, StackSize(params)), i, FastParameter(m, params, i))
    {
      assert FastHolds(Reserved(m, params), p, params, i);
      if i < 6 {
        ParameterRegistersDistinct(i, i);
      }
    }
  }

  // When slot i + 1 holds what fast argument i unpacks to, both wrappers call
  // the same target with the same parameters.
  lemma FastAndSlowAgree(callee: Callee, slow: Machine, fast: Machine, address: int, result: Type, params: seq<Type>,
                         slowTop: int, fastTop: int) returns (slowEntry: Entry, fastEntry: Entry)
    requires SlowReady(slow, params, slowTop) && FastReady(fast, params, fastTop) && NoFloats(params)
    requires ObeysConvention(callee, address, StackSize(params), slowTop)
    requires ObeysConvention(callee, address, StackSize(params), fastTop)
    requires forall i: nat :: i < |params| && i < 30 ==>
      SlotIs(slow.mem, slow.regs.rdi, i, FastParameter(fast, params, i))
    ensures var slowEnd, fastEnd :=
        Run(callee, SlowCode(address, result, params), slow), Run(callee, FastCode(address, params), fast);
      slowEnd.Some? && slowEnd.value.calls == [slowEntry] && fastEnd.Some? && fastEnd.value.calls == [fastEntry]
    ensures slowEntry.target == fastEntry.target == address
    ensures forall i: nat :: i < |params| && i < 30 ==>
      HasParameter(slowEntry, i, FastParameter(fast, params, i)) &&
      HasParameter(fastEntry, i, FastParameter(fast, params, i))
  {
    hide SlowReady, FastReady, ObeysConvention, Run, SlowCode, FastCode, HasParameter, FastParameter, NoFloats,
      IsAligned;
    var f, g;
    f, slowEntry := SlowcallDelivers(callee, slow, address, result, params, slowTop);
    g, fastEntry := FastcallDelivers(callee, fast, address, params, fastTop);
    forall i: nat | i < |params| && i < 30 ensures HasParameter(slowEntry, i, FastParameter(fast, params, i)) {
      assert PassesSlot(slowEntry, i, slow.mem, slow.regs.rdi);
      assert SlotIs(slow.mem, slow.regs.rdi, i, FastParameter(fast, params, i));
    }
  }
}
