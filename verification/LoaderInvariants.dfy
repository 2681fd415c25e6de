// What every action of the module loader keeps.
module LoaderInvariants {
  import opened Prelude
  import opened Loader

  // moduleCache is a bijection between specifiers and compiled modules.
  ghost predicate CacheInv(s: State)
  {
    && (forall specifier :: specifier in s.moduleCache ==>
          s.moduleCache[specifier] < |s.modules| && s.modules[s.moduleCache[specifier]].specifier == specifier)
    && (forall i :: 0 <= i < |s.modules| ==>
          s.modules[i].specifier in s.moduleCache && s.moduleCache[s.modules[i].specifier] == i)
  }

  // moduleLoads holds exactly the loads whose rejection handler has not run.
  ghost predicate LoadsInv(s: State)
  {
    && (forall specifier :: specifier in s.moduleLoads ==>
          s.moduleLoads[specifier] < |s.loads| && !s.loads[s.moduleLoads[specifier]].handled &&
          s.loads[s.moduleLoads[specifier]].specifier == specifier)
    && (forall i :: 0 <= i < |s.loads| && !s.loads[i].handled ==>
          s.loads[i].specifier in s.moduleLoads && s.moduleLoads[s.loads[i].specifier] == i)
  }

  predicate IsModuleOf(s: State, load: Load, mod: nat)
  {
    mod < |s.modules| && s.modules[mod].specifier == load.specifier
  }

  // A load works on the module of its own specifier, has called evaluateModule
  // at most once and not before its position says so, and is settled when it
  // has finished.
  predicate LoadOk(s: State, load: Load)
  {
    && (load.promise == Pending <==> load.position != Finished)
    && (load.handled ==> load.promise == Rejected)
    && (match load.promise
        case Fulfilled(namespace) =>
          namespace.Some? && IsModuleOf(s, load, namespace.value) && s.modules[namespace.value].evaluated
        case _ => true)
    && load.calls <= 1
    && (match load.position
        case AwaitSource => load.calls == 0
        case AwaitTurn(mod) => load.calls == 0 && IsModuleOf(s, load, mod)
        case AwaitRequest(mod, request) =>
          load.calls == 0 && IsModuleOf(s, load, mod) && request < |s.modules[mod].requests|
        case Calling(mod) => load.calls == 1 && IsModuleOf(s, load, mod)
        case AwaitEvaluation(mod) =>
          load.calls == 1 && IsModuleOf(s, load, mod) && s.modules[mod].status in {Suspended, Evaluated, Errored}
        case Finished => true)
  }

  ghost predicate PositionsInv(s: State)
  {
    forall i :: 0 <= i < |s.loads| ==> LoadOk(s, s.loads[i])
  }

  // Exactly the load on the stack is calling evaluateModule.
  ghost predicate FrameInv(s: State)
  {
    && (forall i :: 0 <= i < |s.loads| && s.loads[i].position.Calling? ==>
          s.stack.Some? && s.stack.value.load == i)
    && (s.stack.Some? ==>
          var Frame(load, root, _) := s.stack.value;
          load < |s.loads| && root < |s.modules| && s.loads[load].position == Calling(root))
  }

  // Which states a module can be in with this stack, how often its body has
  // run, and when its record says it is evaluated.
  predicate ModuleOk(s: State, i: nat)
    requires i < |s.modules|
  {
    var m := s.modules[i];
    && (m.status == Instantiating ==> s.stack.Some? && s.stack.value.linking)
    && (m.status == Evaluating ==> s.stack.Some? && !s.stack.value.linking)
    && m.entries == (if m.status in {Uninstantiated, Instantiating, Instantiated} then 0 else 1)
    && (m.evaluated ==> m.status == Evaluated)
    && m.namespace == if m.evaluated then Some(i) else None
  }

  ghost predicate ModulesInv(s: State)
  {
    forall i :: 0 <= i < |s.modules| ==> ModuleOk(s, i)
  }

  ghost predicate Inv(s: State)
  {
    CacheInv(s) && LoadsInv(s) && PositionsInv(s) && FrameInv(s) && ModulesInv(s) && s.refusals == 0
  }

  lemma InvLinked(s: State)
    requires Inv(s)
    ensures IsLinked(s)
  {
    forall i | 0 <= i < |s.loads| ensures LoadOk(s, s.loads[i]) {
    }
  }

  lemma StartInv()
    ensures Inv(START)
  {
  }

  // ---- Updates ----

  // The modules of s are still there in s', no further back in their lives.
  predicate ModulesAdvance(s: State, s': State)
  {
    && |s.modules| <= |s'.modules|
    && forall i :: 0 <= i < |s.modules| ==>
         && s'.modules[i].specifier == s.modules[i].specifier
         && s'.modules[i].requests == s.modules[i].requests
         && (s.modules[i].evaluated ==> s'.modules[i].evaluated)
         && (s.modules[i].status in {Suspended, Evaluated, Errored} ==>
               s'.modules[i].status in {Suspended, Evaluated, Errored})
  }

  lemma LoadKept(s: State, s': State, load: Load)
    requires LoadOk(s, load) && ModulesAdvance(s, s')
    ensures LoadOk(s', load)
  {
  }

  lemma PositionsKept(s: State, s': State)
    requires PositionsInv(s) && ModulesAdvance(s, s') && s'.loads == s.loads
    ensures PositionsInv(s')
  {
    hide LoadOk, ModulesAdvance;
    forall i | 0 <= i < |s'.loads| ensures LoadOk(s', s'.loads[i]) {
      assert LoadOk(s, s.loads[i]);
      LoadKept(s, s', s.loads[i]);
    }
  }

  // One load moves on and every other part of the state stays.
  lemma MoveKeeps(s: State, s': State, load: nat, moved: Load)
    requires PositionsInv(s) && LoadsInv(s) && load < |s.loads|
    requires s' == s.(loads := s.loads[load := moved], stack := s'.stack)
    requires moved.specifier == s.loads[load].specifier && moved.handled == s.loads[load].handled
    requires LoadOk(s, moved)
    ensures PositionsInv(s') && LoadsInv(s')
  {
    assert ModulesAdvance(s, s');
    hide LoadOk, ModulesAdvance;
    forall i | 0 <= i < |s'.loads| ensures LoadOk(s', s'.loads[i]) {
      assert LoadOk(s, s.loads[i]);
      LoadKept(s, s', s'.loads[i]);
    }
  }

  lemma MoveInv(s: State, load: nat, moved: Load)
    requires Inv(s) && load < |s.loads|
    requires moved.specifier == s.loads[load].specifier && moved.handled == s.loads[load].handled
    requires LoadOk(s, moved) && !moved.position.Calling? && !s.loads[load].position.Calling?
    ensures Inv(s.(loads := s.loads[load := moved]))
  {
    var s' := s.(loads := s.loads[load := moved]);
    assert s.stack.Some? ==> s.stack.value.load != load;
    assert FrameInv(s');
    hide FrameInv;
    MoveKeeps(s, s', load, moved);
    hide LoadOk, PositionsInv, LoadsInv;
    assert forall i :: 0 <= i < |s.modules| && ModuleOk(s, i) ==> ModuleOk(s', i);
  }

  // evaluateModule is entered with an empty stack.
  lemma CallInv(s: State, load: nat, moved: Load, root: nat, linking: bool)
    requires Inv(s) && s.stack.None? && load < |s.loads|
    requires moved.specifier == s.loads[load].specifier && moved.handled == s.loads[load].handled
    requires LoadOk(s, moved) && moved.position == Calling(root)
    ensures Inv(s.(loads := s.loads[load := moved], stack := Some(Frame(load, root, linking))))
  {
    var s' := s.(loads := s.loads[load := moved], stack := Some(Frame(load, root, linking)));
    MoveKeeps(s, s', load, moved);
    hide PositionsInv, LoadsInv;
    assert FrameInv(s');
    hide LoadOk;
    assert forall i :: 0 <= i < |s.modules| && ModuleOk(s, i) ==> ModuleOk(s', i);
  }

  // evaluateModule is left when no module is being linked or evaluated.
  lemma LeaveInv(s: State, moved: Load)
    requires Inv(s) && s.stack.Some? && s.stack.value.load < |s.loads|
    requires forall i :: 0 <= i < |s.modules| ==> s.modules[i].status !in {Instantiating, Evaluating}
    requires var was := s.loads[s.stack.value.load]; moved.specifier == was.specifier && moved.handled == was.handled
    requires LoadOk(s, moved) && !moved.position.Calling?
    ensures Inv(s.(loads := s.loads[s.stack.value.load := moved], stack := None))
  {
    var s' := s.(loads := s.loads[s.stack.value.load := moved], stack := None);
    MoveKeeps(s, s', s.stack.value.load, moved);
    hide PositionsInv, LoadsInv, LoadOk;
    assert FrameInv(s');
    assert forall i :: 0 <= i < |s.modules| && ModuleOk(s, i) ==> ModuleOk(s', i);
  }

  function WithModules(s: State, modules: seq<Module>, linking: bool): State
  {
    s.(modules := modules,
       stack := if s.stack.Some? then Some(s.stack.value.(linking := linking)) else None)
  }

  // Modules change within what ModuleOk allows for the stack.
  lemma ModulesChangeInv(s: State, modules: seq<Module>, linking: bool)
    requires Inv(s) && |modules| == |s.modules|
    requires var s' := WithModules(s, modules, linking);
      ModulesAdvance(s, s') && forall i :: 0 <= i < |modules| ==> ModuleOk(s', i)
    ensures Inv(WithModules(s, modules, linking))
  {
    var s' := WithModules(s, modules, linking);
    PositionsKept(s, s');
    hide LoadOk, PositionsInv;
    assert CacheInv(s') && FrameInv(s') && ModulesInv(s');
  }

  // ---- The pieces of main.js ----

  // A load that has not called evaluateModule yet.
  predicate BeforeCall(s: State, load: nat)
  {
    load < |s.loads| && s.loads[load].promise == Pending && s.loads[load].calls == 0 &&
    !s.loads[load].position.Calling? && !s.loads[load].position.AwaitEvaluation?
  }

  lemma RejectInv(s: State, load: nat)
    requires Inv(s) && load < |s.loads| && s.loads[load].promise == Pending && !s.loads[load].position.Calling?
    ensures Inv(Reject(s, load))
  {
    assert LoadOk(s, s.loads[load]);
    MoveInv(s, load, s.loads[load].(position := Finished, promise := Rejected));
  }

  lemma FulfilInv(s: State, load: nat, mod: nat)
    requires Inv(s) && load < |s.loads| && s.loads[load].promise == Pending && !s.loads[load].position.Calling?
    requires IsModuleOf(s, s.loads[load], mod) && s.modules[mod].evaluated
    ensures Inv(Fulfil(s, load, Some(mod)))
  {
    assert LoadOk(s, s.loads[load]);
    MoveInv(s, load, s.loads[load].(position := Finished, promise := Fulfilled(Some(mod))));
  }

  lemma CompileInv(s: State, specifier: Specifier, requests: seq<Specifier>)
    requires Inv(s) && specifier !in s.moduleCache
    ensures Inv(Compile(s, specifier, requests))
  {
    var s' := Compile(s, specifier, requests);
    PositionsKept(s, s');
    hide LoadOk, PositionsInv;
    forall i | 0 <= i < |s'.modules| ensures ModuleOk(s', i) {
      assert i < |s.modules| ==> ModuleOk(s, i);
    }
    assert CacheInv(s') && FrameInv(s');
  }

  lemma OnModuleLoadInv(s: State, specifier: Specifier)
    requires Inv(s)
    ensures Inv(OnModuleLoad(s, specifier))
  {
    var s' := OnModuleLoad(s, specifier);
    if specifier != "" && specifier !in s.moduleLoads {
      OnModuleLoadPositions(s, specifier);
      hide LoadOk, PositionsInv;
      assert LoadsInv(s') && FrameInv(s') && CacheInv(s');
      assert forall i :: 0 <= i < |s.modules| && ModuleOk(s, i) ==> ModuleOk(s', i);
    }
  }

  lemma OnModuleLoadPositions(s: State, specifier: Specifier)
    requires PositionsInv(s) && CacheInv(s)
    ensures PositionsInv(OnModuleLoad(s, specifier))
  {
    var s' := OnModuleLoad(s, specifier);
    if specifier != "" && specifier !in s.moduleLoads {
      assert LoadOk(s, s'.loads[|s.loads|]);
      forall i | 0 <= i < |s'.loads| ensures LoadOk(s', s'.loads[i]) {
        assert i < |s.loads| ==> LoadOk(s, s.loads[i]);
        assert ModulesAdvance(s, s');
        LoadKept(s, s', s'.loads[i]);
      }
    }
  }

  lemma EvaluateForm(s: State, load: nat, mod: nat)
    requires load < |s.loads| && mod < |s.modules| && s.loads[load].calls == 0 && !s.modules[mod].evaluated
    requires s.modules[mod].status !in {Instantiating, Evaluating}
    ensures var linking := s.modules[mod].status == Uninstantiated;
      var moved := s.loads[load].(position := Calling(mod), calls := 1);
      var called := s.(loads := s.loads[load := moved], stack := Some(Frame(load, mod, linking)));
      Evaluate(s, load, mod) == if linking then SetStatus(called, mod, Instantiating) else called
  {
  }

  // With nothing on the stack no module is being linked or evaluated, so the
  // call is never refused.
  lemma EvaluateInv(s: State, load: nat, mod: nat)
    requires Inv(s) && s.stack.None? && BeforeCall(s, load) && IsModuleOf(s, s.loads[load], mod)
    ensures Inv(Evaluate(s, load, mod))
    ensures Evaluate(s, load, mod).refusals == s.refusals
  {
    var linking := s.modules[mod].status == Uninstantiated;
    var moved := s.loads[load].(position := Calling(mod), calls := 1);
    var called := s.(loads := s.loads[load := moved], stack := Some(Frame(load, mod, linking)));
    assert ModuleOk(s, mod) && LoadOk(s, s.loads[load]) && LoadOk(s, moved);
    hide LoadOk, CacheInv, LoadsInv, PositionsInv, FrameInv, ModulesInv;
    if s.modules[mod].evaluated {
      FulfilInv(s, load, mod);
    } else {
      EvaluateForm(s, load, mod);
      CallInv(s, load, moved, mod, linking);
      hide Evaluate;
      if linking {
        StatusInv(called, mod, Instantiating);
      }
    }
  }

  // Changing the status of a module within what ModuleOk allows.
  lemma StatusInv(s: State, mod: nat, status: Status)
    requires Inv(s) && mod < |s.modules| && !s.modules[mod].evaluated
    requires s.modules[mod].status in {Suspended, Evaluated, Errored} ==> status in {Suspended, Evaluated, Errored}
    requires ModuleOk(s.(modules := s.modules[mod := s.modules[mod].(status := status)]), mod)
    ensures Inv(SetStatus(s, mod, status))
  {
    var modules := s.modules[mod := s.modules[mod].(status := status)];
    forall i | 0 <= i < |modules| ensures ModuleOk(s.(modules := modules), i) {
      assert ModuleOk(s, i);
    }
    ModulesChangeInv(s, modules, if s.stack.Some? then s.stack.value.linking else false);
  }

  lemma LoadRequestsInv(s: State, load: nat, mod: nat, i: nat)
    requires Inv(s) && s.stack.None? && BeforeCall(s, load) && IsModuleOf(s, s.loads[load], mod)
    requires i <= |s.modules[mod].requests|
    ensures Inv(LoadRequests(s, load, mod, i))
  {
    var next := NextRequest(s, s.modules[mod].requests, i);
    if next < |s.modules[mod].requests| {
      assert LoadOk(s, s.loads[load]);
      MoveInv(s, load, s.loads[load].(position := AwaitRequest(mod, next)));
    } else {
      EvaluateInv(s, load, mod);
    }
  }

  // ---- Actions ----

  lemma ResumeSourceInv(s: State, load: nat, fetch: Fetch)
    requires Inv(s) && CanResume(s, load) && s.loads[load].position.AwaitSource?
    requires IsLinked(s)
    ensures Inv(ResumeSource(s, load, fetch))
  {
    var specifier := s.loads[load].specifier;
    assert LoadOk(s, s.loads[load]);
    if fetch.NoSource? {
      RejectInv(s, load);
    } else if specifier in s.moduleCache {
      EvaluateInv(s, load, s.moduleCache[specifier]);
    } else if fetch.BadSource? {
      RejectInv(s, load);
    } else {
      CompileInv(s, specifier, fetch.requests);
      LoadRequestsInv(Compile(s, specifier, fetch.requests), load, |s.modules|, 0);
    }
  }

  lemma ResumeRequestInv(s: State, load: nat, fetch: Fetch)
    requires Inv(s) && CanResume(s, load) && s.loads[load].position.AwaitRequest?
    requires IsLinked(s)
    ensures Inv(ResumeRequest(s, load, fetch))
  {
    hide NextRequest, LoadRequests, Evaluate;
    var AwaitRequest(mod, i) := s.loads[load].position;
    var request := s.modules[mod].requests[i];
    assert LoadOk(s, s.loads[load]);
    if fetch.NoSource? {
      RejectInv(s, load);
    } else if request in s.moduleCache {
      LoadRequestsInv(s, load, mod, i + 1);
    } else if fetch.BadSource? {
      RejectInv(s, load);
    } else {
      CompileInv(s, request, fetch.requests);
      LoadRequestsInv(Compile(s, request, fetch.requests), load, mod, i + 1);
    }
  }

  lemma ResumeEvaluationInv(s: State, load: nat, rejected: bool)
    requires Inv(s) && IsLinked(s) && Enabled(s, DoResumeEvaluation(load, rejected))
    ensures Inv(ResumeEvaluation(s, load, rejected))
  {
    var mod := s.loads[load].position.mod;
    assert LoadOk(s, s.loads[load]);
    if rejected {
      RejectInv(s, load);
    } else {
      var modules := s.modules[mod := s.modules[mod].(namespace := Some(mod), evaluated := true)];
      forall i | 0 <= i < |modules| ensures ModuleOk(s.(modules := modules), i) {
        assert ModuleOk(s, i);
      }
      ModulesChangeInv(s, modules, false);
      FulfilInv(s.(modules := modules), load, mod);
    }
  }

  // The handler removes the load that registered it and no other.
  lemma RunHandlerInv(s: State, load: nat)
    requires Inv(s) && Enabled(s, DoHandler(load))
    ensures Inv(RunHandler(s, load))
    ensures s.loads[load].specifier in s.moduleLoads && s.moduleLoads[s.loads[load].specifier] == load
  {
    var s' := RunHandler(s, load);
    forall i | 0 <= i < |s'.loads| ensures LoadOk(s', s'.loads[i]) {
      assert LoadOk(s, s.loads[i]);
      assert ModulesAdvance(s, s');
      LoadKept(s, s', s.loads[i]);
    }
    hide LoadOk, PositionsInv;
    assert LoadsInv(s') && FrameInv(s') && CacheInv(s');
    assert forall i :: 0 <= i < |s.modules| && ModuleOk(s, i) ==> ModuleOk(s', i);
  }

  lemma OnModuleInstantiateInv(s: State, specifier: Specifier, fetch: Fetch)
    requires Inv(s) && IsLinked(s) && s.stack.Some? && s.stack.value.linking
    ensures Inv(OnModuleInstantiate(s, specifier, fetch))
  {
    if specifier !in s.moduleCache && !fetch.Compiles? {
      AbortInv(s);
    } else {
      if specifier !in s.moduleCache {
        CompileInv(s, specifier, fetch.requests);
      }
      var known := if specifier in s.moduleCache then s else Compile(s, specifier, fetch.requests);
      var mod := known.moduleCache[specifier];
      assert ModuleOk(known, mod);
      if known.modules[mod].status == Uninstantiated {
        StatusInv(known, mod, Instantiating);
      }
    }
  }

  lemma AbortInv(s: State)
    requires Inv(s)
    ensures Inv(s.(aborted := true))
  {
    var s' := s.(aborted := true);
    PositionsKept(s, s');
    hide LoadOk, PositionsInv;
    assert forall i :: 0 <= i < |s.modules| && ModuleOk(s, i) ==> ModuleOk(s', i);
  }

  lemma EndLinkingInv(s: State, linked: bool)
    requires Inv(s) && IsLinked(s) && s.stack.Some? && s.stack.value.linking
    ensures Inv(EndLinking(s, linked))
  {
    var load := s.stack.value.load;
    var modules := ChangeStatus(s.modules, Instantiating, if linked then Instantiated else Uninstantiated);
    var changed := s.(modules := modules, stack := Some(s.stack.value.(linking := !linked)));
    forall i | 0 <= i < |modules| ensures ModuleOk(changed, i) && modules[i].status !in {Instantiating, Evaluating} {
      assert ModuleOk(s, i);
    }
    ModulesChangeInv(s, modules, !linked);
    if !linked {
      assert LoadOk(changed, s.loads[load]) by {
        assert LoadOk(s, s.loads[load]);
      }
      LeaveInv(changed, s.loads[load].(position := Finished, promise := Rejected));
    }
  }

  lemma EnterBodyInv(s: State, mod: nat)
    requires Inv(s) && Enabled(s, DoEnter(mod))
    ensures Inv(EnterBody(s, mod))
  {
    hide CacheInv, LoadsInv, PositionsInv, FrameInv;
    var modules := s.modules[mod := s.modules[mod].(status := Evaluating, entries := s.modules[mod].entries + 1)];
    forall i | 0 <= i < |modules| ensures ModuleOk(s.(modules := modules), i) {
      assert ModuleOk(s, i);
    }
    hide Inv, ModuleOk;
    ModulesChangeInv(s, modules, false);
  }

  lemma ReturnInv(s: State, rejected: bool)
    requires Inv(s) && IsLinked(s) && Enabled(s, DoReturn(rejected))
    ensures Inv(ReturnFromEvaluate(s, rejected))
  {
    var Frame(load, root, _) := s.stack.value;
    assert LoadOk(s, s.loads[load]);
    forall i | 0 <= i < |s.modules| ensures s.modules[i].status !in {Instantiating, Evaluating} {
      assert ModuleOk(s, i);
    }
    if rejected {
      LeaveInv(s, s.loads[load].(position := Finished, promise := Rejected));
    } else {
      LeaveInv(s, s.loads[load].(position := AwaitEvaluation(root)));
    }
  }

  // Every action keeps the invariant, whatever the fetches, the compiler and
  // the module bodies do.
  lemma StepInv(s: State, a: Action)
    requires Inv(s) && Enabled(s, a)
    ensures IsLinked(s) && Inv(Apply(s, a))
  {
    InvLinked(s);
    match a
    case DoImport(specifier) => OnModuleLoadInv(s, specifier);
    case DoResumeSource(load, fetch) => ResumeSourceInv(s, load, fetch);
    case DoResumeRequest(load, fetch) => ResumeRequestInv(s, load, fetch);
    case DoResumeTurn(load) =>
      assert LoadOk(s, s.loads[load]);
      EvaluateInv(s, load, s.loads[load].position.mod);
    case DoResumeEvaluation(load, rejected) => ResumeEvaluationInv(s, load, rejected);
    case DoHandler(load) => RunHandlerInv(s, load);
    case DoLink(specifier, fetch) => OnModuleInstantiateInv(s, specifier, fetch);
    case DoEndLinking(linked) => EndLinkingInv(s, linked);
    case DoEnter(mod) => EnterBodyInv(s, mod);
    case DoLeave(mod, status) =>
      assert ModuleOk(s, mod);
      StatusInv(s, mod, status);
    case DoReturn(rejected) => ReturnInv(s, rejected);
    case DoSettle(mod, status) =>
      assert ModuleOk(s, mod);
      StatusInv(s, mod, status);
  }
}
