// The ES module loader of main.js with the module states that lo.cc drives:
// what import(), the awaits of load_and_evaluate, synchronous linking and
// evaluation, and the rejection handler do to the shared state.
//
// JavaScript runs to completion: every action below is one uninterrupted run,
// from a call or a resumed await to the next await. While a module is being
// linked or evaluated the stack is not empty, no await resumes, and the code of
// a module body may call import(). Which action comes next is arbitrary.
module Loader {
  import opened Prelude

  type Specifier = string

  // ---- State ----

  // The status of a module in V8. Suspended is an evaluated module whose
  // top-level await has not finished.
  datatype Status = Uninstantiated | Instantiating | Instantiated | Evaluating | Suspended | Evaluated | Errored

  // A compiled module and the record of it in moduleCache. Its identity is its
  // index in the state. Entries counts how often its body has been entered.
  datatype Module = Module(specifier: Specifier, requests: seq<Specifier>, status: Status,
                           namespace: Option<nat>, evaluated: bool, entries: nat)

  datatype Promise = Pending | Fulfilled(namespace: Option<nat>) | Rejected

  // Where a call of load_and_evaluate stands: at one of its awaits, inside
  // evaluateModule, or finished.
  datatype Position =
    | AwaitSource
    | AwaitTurn(mod: nat)
    | AwaitRequest(mod: nat, request: nat)
    | Calling(mod: nat)
    | AwaitEvaluation(mod: nat)
    | Finished

  // A call of load_and_evaluate, with its promise, the number of times it has
  // called evaluateModule, and whether its rejection handler has run.
  datatype Load = Load(specifier: Specifier, position: Position, promise: Promise, calls: nat, handled: bool)

  // The call of evaluateModule on the stack.
  datatype Frame = Frame(load: nat, root: nat, linking: bool)

  datatype State = State(
    moduleLoads: map<Specifier, nat>,
    moduleCache: map<Specifier, nat>,
    loads: seq<Load>,
    modules: seq<Module>,
    stack: Option<Frame>,
    refusals: nat,
    aborted: bool)

  const START: State := State(map[], map[], [], [], None, 0, false)

  // What fetching and compiling a source comes to.
  datatype Fetch = NoSource | BadSource | Compiles(requests: seq<Specifier>)

  // ---- The pieces of main.js ----

  function Move(s: State, load: nat, position: Position): State
    requires load < |s.loads|
  {
    s.(loads := s.loads[load := s.loads[load].(position := position)])
  }

  function Reject(s: State, load: nat): State
    requires load < |s.loads|
  {
    s.(loads := s.loads[load := s.loads[load].(position := Finished, promise := Rejected)])
  }

  function Fulfil(s: State, load: nat, namespace: Option<nat>): State
    requires load < |s.loads|
  {
    s.(loads := s.loads[load := s.loads[load].(position := Finished, promise := Fulfilled(namespace))])
  }

  // loadModule and the moduleCache.set that follows it.
  function Compile(s: State, specifier: Specifier, requests: seq<Specifier>): State
  {
    s.(modules := s.modules + [Module(specifier, requests, Uninstantiated, None, false, 0)],
       moduleCache := s.moduleCache[specifier := |s.modules|])
  }

  // on_module_load: import() of a specifier. An empty one is ignored.
  function OnModuleLoad(s: State, specifier: Specifier): State
  {
    if specifier == "" || specifier in s.moduleLoads then s
    else
      var position := if specifier in s.moduleCache then AwaitTurn(s.moduleCache[specifier]) else AwaitSource;
      s.(loads := s.loads + [Load(specifier, position, Pending, 0, false)],
         moduleLoads := s.moduleLoads[specifier := |s.loads|])
  }

  // The end of load_and_evaluate from its test of mod.evaluated, with the start
  // of EvaluateModule: a module that is being linked or evaluated is refused, an
  // unlinked one is linked first.
  function Evaluate(s: State, load: nat, mod: nat): State
    requires load < |s.loads| && mod < |s.modules|
  {
    var m := s.modules[mod];
    if m.evaluated then Fulfil(s, load, m.namespace)
    else
      var called := s.(loads := s.loads[load := s.loads[load].(calls := s.loads[load].calls + 1)]);
      if m.status == Instantiating || m.status == Evaluating then
        Reject(called, load).(refusals := s.refusals + 1)
      else if m.status == Uninstantiated then
        Move(called, load, Calling(mod)).(
          modules := s.modules[mod := m.(status := Instantiating)],
          stack := Some(Frame(load, mod, true)))
      else
        Move(called, load, Calling(mod)).(stack := Some(Frame(load, mod, false)))
  }

  // The first request from position i on that is not cached.
  function NextRequest(s: State, requests: seq<Specifier>, i: nat): (next: nat)
    requires i <= |requests|
    ensures i <= next <= |requests|
    ensures next < |requests| ==> requests[next] !in s.moduleCache
    ensures forall j :: i <= j < next ==> requests[j] in s.moduleCache
    decreases |requests| - i
  {
    if i == |requests| || requests[i] !in s.moduleCache then i else NextRequest(s, requests, i + 1)
  }

  // The loop over mod.requests from position i on, up to its next await.
  function LoadRequests(s: State, load: nat, mod: nat, i: nat): State
    requires load < |s.loads| && mod < |s.modules| && i <= |s.modules[mod].requests|
  {
    var next := NextRequest(s, s.modules[mod].requests, i);
    if next < |s.modules[mod].requests| then Move(s, load, AwaitRequest(mod, next))
    else Evaluate(s, load, mod)
  }

  function ResumeSource(s: State, load: nat, fetch: Fetch): State
    requires load < |s.loads|
    requires s.loads[load].specifier in s.moduleCache ==> s.moduleCache[s.loads[load].specifier] < |s.modules|
  {
    var specifier := s.loads[load].specifier;
    if fetch.NoSource? then Reject(s, load)
    else if specifier in s.moduleCache then Evaluate(s, load, s.moduleCache[specifier])
    else if fetch.BadSource? then Reject(s, load)
    else LoadRequests(Compile(s, specifier, fetch.requests), load, |s.modules|, 0)
  }

  function ResumeRequest(s: State, load: nat, fetch: Fetch): State
    requires load < |s.loads| && s.loads[load].position.AwaitRequest?
    requires s.loads[load].position.mod < |s.modules|
    requires s.loads[load].position.request < |s.modules[s.loads[load].position.mod].requests|
  {
    var AwaitRequest(mod, i) := s.loads[load].position;
    var request := s.modules[mod].requests[i];
    if fetch.NoSource? then Reject(s, load)
    else if request in s.moduleCache then LoadRequests(s, load, mod, i + 1)
    else if fetch.BadSource? then Reject(s, load)
    else LoadRequests(Compile(s, request, fetch.requests), load, mod, i + 1)
  }

  // The promise of the evaluation settles: with the module's error, with that of
  // the root of its cycle, which leaves the module itself evaluated, or with the
  // namespace.
  function ResumeEvaluation(s: State, load: nat, rejected: bool): State
    requires load < |s.loads| && s.loads[load].position.AwaitEvaluation?
    requires s.loads[load].position.mod < |s.modules|
  {
    var mod := s.loads[load].position.mod;
    var m := s.modules[mod];
    if rejected then Reject(s, load)
    else
      Fulfil(s, load, Some(mod)).(modules := s.modules[mod := m.(namespace := Some(mod), evaluated := true)])
  }

  // The handler that on_module_load attaches: moduleLoads.delete(specifier).
  function RunHandler(s: State, load: nat): State
    requires load < |s.loads|
  {
    s.(moduleLoads := s.moduleLoads - {s.loads[load].specifier},
       loads := s.loads[load := s.loads[load].(handled := true)])
  }

  // on_module_instantiate, called while V8 links: a cached module or one that is
  // loaded on the spot. Without a source the process aborts.
  function OnModuleInstantiate(s: State, specifier: Specifier, fetch: Fetch): State
    requires specifier in s.moduleCache ==> s.moduleCache[specifier] < |s.modules|
  {
    if specifier !in s.moduleCache && !fetch.Compiles? then s.(aborted := true)
    else
      var known := if specifier in s.moduleCache then s else Compile(s, specifier, fetch.requests);
      var mod := known.moduleCache[specifier];
      if known.modules[mod].status == Uninstantiated then
        known.(modules := known.modules[mod := known.modules[mod].(status := Instantiating)])
      else known
  }

  // ---- V8 ----

  function ChangeStatus(modules: seq<Module>, from: Status, to: Status): (changed: seq<Module>)
    ensures |changed| == |modules|
    ensures forall i :: 0 <= i < |modules| ==>
      changed[i] == if modules[i].status == from then modules[i].(status := to) else modules[i]
  {
    seq(|modules|, i requires 0 <= i < |modules| =>
      if modules[i].status == from then modules[i].(status := to) else modules[i])
  }

  // Linking ends: the graph is linked and evaluation starts, or it is unlinked
  // again and evaluateModule throws.
  function EndLinking(s: State, linked: bool): State
    requires s.stack.Some? && s.stack.value.load < |s.loads|
  {
    if linked then
      s.(modules := ChangeStatus(s.modules, Instantiating, Instantiated),
         stack := Some(s.stack.value.(linking := false)))
    else
      Reject(s, s.stack.value.load).(
        modules := ChangeStatus(s.modules, Instantiating, Uninstantiated),
        stack := None)
  }

  function EnterBody(s: State, mod: nat): State
    requires mod < |s.modules|
  {
    s.(modules := s.modules[mod := s.modules[mod].(status := Evaluating, entries := s.modules[mod].entries + 1)])
  }

  function SetStatus(s: State, mod: nat, status: Status): State
    requires mod < |s.modules|
  {
    s.(modules := s.modules[mod := s.modules[mod].(status := status)])
  }

  // evaluateModule returns to load_and_evaluate, which awaits its result, or
  // throws the error of an evaluation that was rejected already.
  function ReturnFromEvaluate(s: State, rejected: bool): State
    requires s.stack.Some? && s.stack.value.load < |s.loads| && s.stack.value.root < |s.modules|
  {
    var Frame(load, root, _) := s.stack.value;
    if rejected then Reject(s, load).(stack := None)
    else Move(s, load, AwaitEvaluation(root)).(stack := None)
  }

  // ---- Actions ----

  datatype Action =
    | DoImport(specifier: Specifier)
    | DoResumeSource(load: nat, fetch: Fetch)
    | DoResumeRequest(load: nat, fetch: Fetch)
    | DoResumeTurn(load: nat)
    | DoResumeEvaluation(load: nat, rejected: bool)
    | DoHandler(load: nat)
    | DoLink(specifier: Specifier, fetch: Fetch)
    | DoEndLinking(linked: bool)
    | DoEnter(mod: nat)
    | DoLeave(mod: nat, status: Status)
    | DoReturn(rejected: bool)
    | DoSettle(mod: nat, status: Status)

  // The load is at this kind of await, and nothing is on the stack.
  predicate CanResume(s: State, load: nat)
  {
    s.stack.None? && load < |s.loads|
  }

  // The promise of an evaluation can settle so. It is fulfilled only with the
  // module evaluated; it is rejected with an errored module, and can be rejected
  // before or after the module is evaluated when the root of its cycle fails.
  predicate MaySettle(status: Status, rejected: bool)
  {
    if rejected then status in {Suspended, Evaluated, Errored} else status == Evaluated
  }

  predicate IsRunning(s: State)
  {
    s.stack.Some? && !s.stack.value.linking
  }

  predicate Enabled(s: State, a: Action)
  {
    !s.aborted &&
    match a
    case DoImport(specifier) => s.stack.None? || IsRunning(s)
    case DoResumeSource(load, _) => CanResume(s, load) && s.loads[load].position.AwaitSource?
    case DoResumeRequest(load, _) => CanResume(s, load) && s.loads[load].position.AwaitRequest?
    case DoResumeTurn(load) => CanResume(s, load) && s.loads[load].position.AwaitTurn?
    case DoResumeEvaluation(load, rejected) =>
      && CanResume(s, load) && s.loads[load].position.AwaitEvaluation?
      && (s.loads[load].position.mod < |s.modules| ==>
            MaySettle(s.modules[s.loads[load].position.mod].status, rejected))
    case DoHandler(load) => CanResume(s, load) && s.loads[load].promise == Rejected && !s.loads[load].handled
    case DoLink(_, _) => s.stack.Some? && s.stack.value.linking
    case DoEndLinking(_) => s.stack.Some? && s.stack.value.linking
    case DoEnter(mod) => IsRunning(s) && mod < |s.modules| && s.modules[mod].status == Instantiated
    case DoLeave(mod, status) =>
      IsRunning(s) && mod < |s.modules| && s.modules[mod].status == Evaluating &&
      status in {Suspended, Evaluated, Errored}
    case DoReturn(rejected) =>
      && IsRunning(s)
      && (forall i :: 0 <= i < |s.modules| ==> s.modules[i].status != Evaluating)
      && (s.stack.value.root < |s.modules| ==>
            var status := s.modules[s.stack.value.root].status;
            status in {Suspended, Evaluated, Errored} && (status == Errored ==> rejected))
    case DoSettle(mod, status) =>
      s.stack.None? && mod < |s.modules| && s.modules[mod].status == Suspended && status in {Evaluated, Errored}
  }

  // The references between the parts of the state are valid.
  predicate IsLinked(s: State)
  {
    && (forall specifier :: specifier in s.moduleCache ==> s.moduleCache[specifier] < |s.modules|)
    && (forall i :: 0 <= i < |s.loads| ==>
          var position := s.loads[i].position;
          (position.AwaitTurn? || position.AwaitRequest? || position.Calling? || position.AwaitEvaluation? ==>
             position.mod < |s.modules|) &&
          (position.AwaitRequest? ==> position.request < |s.modules[position.mod].requests|))
    && (s.stack.Some? ==> s.stack.value.load < |s.loads| && s.stack.value.root < |s.modules|)
  }

  function Apply(s: State, a: Action): State
    requires IsLinked(s) && Enabled(s, a)
  {
    match a
    case DoImport(specifier) => OnModuleLoad(s, specifier)
    case DoResumeSource(load, fetch) => ResumeSource(s, load, fetch)
    case DoResumeRequest(load, fetch) => ResumeRequest(s, load, fetch)
    case DoResumeTurn(load) => Evaluate(s, load, s.loads[load].position.mod)
    case DoResumeEvaluation(load, rejected) => ResumeEvaluation(s, load, rejected)
    case DoHandler(load) => RunHandler(s, load)
    case DoLink(specifier, fetch) => OnModuleInstantiate(s, specifier, fetch)
    case DoEndLinking(linked) => EndLinking(s, linked)
    case DoEnter(mod) => EnterBody(s, mod)
    case DoLeave(mod, status) => SetStatus(s, mod, status)
    case DoReturn(rejected) => ReturnFromEvaluate(s, rejected)
    case DoSettle(mod, status) => SetStatus(s, mod, status)
  }
}
