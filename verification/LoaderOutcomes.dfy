// What the calls of load_and_evaluate come to, over every run of the module
// loader: when an import waits, calls evaluateModule, is fulfilled or fails.
module LoaderOutcomes {
  import opened Prelude
  import opened Loader
  import opened LoaderInvariants
  import opened LoaderTheorems

  // ---- Actions ----

  // The source a load awaits: its own or that of a request of its module.
  function Awaited(s: State, load: nat): Specifier
    requires IsLinked(s) && load < |s.loads|
  {
    match s.loads[load].position
    case AwaitRequest(mod, request) => s.modules[mod].requests[request]
    case _ => s.loads[load].specifier
  }

  predicate OnStack(s: State, load: nat)
  {
    s.stack.Some? && s.stack.value.load == load
  }

  predicate IsFetch(a: Action, load: nat)
  {
    (a.DoResumeSource? || a.DoResumeRequest?) && a.load == load
  }

  // The action brings the load an error: a source that cannot be had, one that
  // does not compile and has no module either, failed linking, or an exception.
  predicate Fails(s: State, a: Action, load: nat)
    requires IsLinked(s) && load < |s.loads|
  {
    || (IsFetch(a, load) && (a.fetch == NoSource || (a.fetch == BadSource && Awaited(s, load) !in s.moduleCache)))
    || (a == DoEndLinking(false) && OnStack(s, load))
    || (a == DoReturn(true) && OnStack(s, load))
    || a == DoResumeEvaluation(load, true)
  }

  predicate Concerns(s: State, a: Action, load: nat)
  {
    || (IsFetch(a, load) || a == DoResumeTurn(load) || a == DoHandler(load))
    || (a.DoResumeEvaluation? && a.load == load)
    || ((a == DoEndLinking(false) || a.DoReturn?) && OnStack(s, load))
  }

  // The specifier whose source the action brings.
  function Brought(s: State, a: Action): Option<Specifier>
    requires IsLinked(s) && Enabled(s, a)
  {
    match a
    case DoResumeSource(load, _) => Some(Awaited(s, load))
    case DoResumeRequest(load, _) => Some(Awaited(s, load))
    case DoLink(specifier, _) => Some(specifier)
    case _ => None
  }

  predicate CompilesNew(s: State, a: Action)
    requires IsLinked(s) && Enabled(s, a)
  {
    Brought(s, a).Some? && Brought(s, a).value !in s.moduleCache && a.fetch.Compiles?
  }

  // ---- What becomes of a load ----

  function StatusOf(s: State, mod: nat): Status
  {
    if mod < |s.modules| then s.modules[mod].status else Uninstantiated
  }

  predicate IsEvaluated(s: State, mod: nat)
  {
    mod < |s.modules| && s.modules[mod].evaluated
  }

  // The load is through with its awaits. With its module recorded as evaluated
  // it has the namespace; otherwise it calls evaluateModule, which links a
  // module that has not been linked yet.
  predicate Ends(s: State, s': State, load: nat, mod: nat)
    requires load < |s.loads| == |s'.loads|
  {
    if IsEvaluated(s, mod) then
      && s'.loads[load] == s.loads[load].(position := Finished, promise := Fulfilled(Some(mod)))
      && s'.stack.None? && StatusOf(s', mod) == StatusOf(s, mod)
    else
      var unlinked := StatusOf(s, mod) == Uninstantiated;
      && s'.loads[load] == s.loads[load].(position := Calling(mod), calls := 1)
      && s'.stack == Some(Frame(load, mod, unlinked))
      && StatusOf(s', mod) == if unlinked then Instantiating else StatusOf(s, mod)
  }

  // A request of the module from this position on has no module yet.
  predicate Lacks(s: State, mod: nat, i: nat)
  {
    mod < |s.modules| && exists j :: i <= j < |s.modules[mod].requests| && s.modules[mod].requests[j] !in s.moduleCache
  }

  // The load waits for the first such request.
  predicate Waits(s: State, s': State, load: nat, mod: nat, i: nat)
    requires load < |s.loads| == |s'.loads| && mod < |s'.modules|
  {
    var requests := s'.modules[mod].requests;
    && s'.loads[load].position.AwaitRequest?
    && var k := s'.loads[load].position.request;
    && i <= k < |requests| && requests[k] !in s'.moduleCache
    && (forall j :: i <= j < k ==> requests[j] in s'.moduleCache)
    && s'.loads[load] == s.loads[load].(position := AwaitRequest(mod, k))
    && s'.stack.None? && StatusOf(s', mod) == StatusOf(s, mod)
  }

  predicate Continues(s: State, s': State, load: nat, mod: nat, i: nat)
    requires load < |s.loads| == |s'.loads| && mod < |s'.modules|
  {
    if Lacks(s', mod, i) then Waits(s, s', load, mod, i) else Ends(s, s', load, mod)
  }

  // Everything but this load, the status of this module and the stack stays.
  predicate Advances(s: State, s': State, load: nat, mod: nat)
  {
    && load < |s.loads| == |s'.loads| && mod < |s.modules| == |s'.modules|
    && s' == s.(loads := s.loads[load := s'.loads[load]],
                modules := s.modules[mod := s.modules[mod].(status := s'.modules[mod].status)],
                stack := s'.stack)
  }

  lemma EvaluateEnds(s: State, load: nat, mod: nat)
    requires Inv(s) && s.stack.None? && BeforeCall(s, load) && IsModuleOf(s, s.loads[load], mod)
    ensures var s' := Evaluate(s, load, mod); Advances(s, s', load, mod) && Ends(s, s', load, mod)
  {
    assert ModuleOk(s, mod) && LoadOk(s, s.loads[load]);
    hide CacheInv, LoadsInv, PositionsInv, FrameInv, ModulesInv, LoadOk;
    if !s.modules[mod].evaluated {
      EvaluateForm(s, load, mod);
      hide Evaluate;
    }
  }

  lemma RequestsContinue(s: State, load: nat, mod: nat, i: nat)
    requires Inv(s) && s.stack.None? && BeforeCall(s, load) && IsModuleOf(s, s.loads[load], mod)
    requires i <= |s.modules[mod].requests|
    ensures var s' := LoadRequests(s, load, mod, i); Advances(s, s', load, mod) && Continues(s, s', load, mod, i)
  {
    EvaluateEnds(s, load, mod);
    hide Inv, LoadOk, Evaluate, Ends;
  }

  // The state in which the module that the action compiles is cached.
  function Known(s: State, a: Action): State
    requires IsLinked(s) && Enabled(s, a)
  {
    if CompilesNew(s, a) then Compile(s, Brought(s, a).value, a.fetch.requests) else s
  }

  // A fetch that does not fail the load brings it to the rest of its requests,
  // or to its end when its module was cached while it waited.
  lemma SourceOutcome(s: State, load: nat, fetch: Fetch)
    requires var a := DoResumeSource(load, fetch); Inv(s) && IsLinked(s) && Enabled(s, a) && !Fails(s, a, load)
    ensures var known, s' := Known(s, DoResumeSource(load, fetch)), ResumeSource(s, load, fetch);
      && s.loads[load].specifier in known.moduleCache
      && var mod := known.moduleCache[s.loads[load].specifier];
      && Advances(known, s', load, mod)
      && if s.loads[load].specifier in s.moduleCache then Ends(s, s', load, mod) else Continues(s, s', load, mod, 0)
  {
    var a, specifier := DoResumeSource(load, fetch), s.loads[load].specifier;
    var known := Known(s, a);
    assert LoadOk(s, s.loads[load]);
    if specifier in s.moduleCache {
      EvaluateEnds(s, load, s.moduleCache[specifier]);
    } else {
      CompileInv(s, specifier, fetch.requests);
      RequestsContinue(known, load, |s.modules|, 0);
      assert StatusOf(known, |s.modules|) == StatusOf(s, |s.modules|);
    }
    hide Inv, LoadOk, Evaluate, LoadRequests;
  }

  // The same, judged from the state before the module was compiled.
  predicate AdvancesFrom(s: State, known: State, s': State, load: nat, mod: nat, i: nat)
  {
    known.loads == s.loads && Advances(known, s', load, mod) && Continues(s, s', load, mod, i)
  }

  lemma ContinuesFrom(s: State, known: State, s': State, load: nat, mod: nat, i: nat)
    requires known.loads == s.loads && Advances(known, s', load, mod) && Continues(known, s', load, mod, i)
    requires StatusOf(known, mod) == StatusOf(s, mod) && IsEvaluated(known, mod) == IsEvaluated(s, mod)
    ensures AdvancesFrom(s, known, s', load, mod, i)
  {
  }

  lemma RequestOutcome(s: State, load: nat, fetch: Fetch, mod: nat, k: nat)
    requires Inv(s) && IsLinked(s) && load < |s.loads| && s.loads[load].position == AwaitRequest(mod, k)
    requires Enabled(s, DoResumeRequest(load, fetch)) && !Fails(s, DoResumeRequest(load, fetch), load)
    ensures s.loads[load].specifier in s.moduleCache && mod == s.moduleCache[s.loads[load].specifier]
    ensures var a := DoResumeRequest(load, fetch);
      AdvancesFrom(s, Known(s, a), Apply(s, a), load, mod, k + 1)
  {
    RequestForm(s, load, fetch, mod, k);
    var known := Known(s, DoResumeRequest(load, fetch));
    hide *;
    RequestsContinue(known, load, mod, k + 1);
    ContinuesFrom(s, known, LoadRequests(known, load, mod, k + 1), load, mod, k + 1);
  }

  // With the request's module cached the load goes on to its next request.
  lemma RequestForm(s: State, load: nat, fetch: Fetch, mod: nat, k: nat)
    requires Inv(s) && IsLinked(s) && load < |s.loads| && s.loads[load].position == AwaitRequest(mod, k)
    requires Enabled(s, DoResumeRequest(load, fetch)) && !Fails(s, DoResumeRequest(load, fetch), load)
    ensures var known := Known(s, DoResumeRequest(load, fetch));
      && Inv(known) && known.loads == s.loads && known.stack.None? && BeforeCall(known, load)
      && IsModuleOf(known, known.loads[load], mod) && k < |known.modules[mod].requests|
      && StatusOf(known, mod) == StatusOf(s, mod) && IsEvaluated(known, mod) == IsEvaluated(s, mod)
      && s.loads[load].specifier in s.moduleCache && mod == s.moduleCache[s.loads[load].specifier]
      && Apply(s, DoResumeRequest(load, fetch)) == LoadRequests(known, load, mod, k + 1)
  {
    var request := s.modules[mod].requests[k];
    assert LoadOk(s, s.loads[load]);
    if request !in s.moduleCache {
      CompileInv(s, request, fetch.requests);
    }
    hide LoadsInv, PositionsInv, FrameInv, ModulesInv, LoadOk, LoadRequests;
  }

  lemma TurnOutcome(s: State, load: nat)
    requires Inv(s) && IsLinked(s) && Enabled(s, DoResumeTurn(load))
    ensures var s', mod := Apply(s, DoResumeTurn(load)), s.loads[load].position.mod;
      && s.loads[load].specifier in s.moduleCache && mod == s.moduleCache[s.loads[load].specifier]
      && Advances(s, s', load, mod) && Ends(s, s', load, mod)
  {
    assert LoadOk(s, s.loads[load]);
    EvaluateEnds(s, load, s.loads[load].position.mod);
    hide Evaluate, Ends;
  }

  // ---- Runs ----

  // A load changes only by an action that concerns it.
  lemma OthersUntouched(states: seq<State>, actions: seq<Action>, i: nat, load: nat)
    requires IsRun(states, actions) && i < |actions| && load < |states[i].loads|
    requires !Concerns(states[i], actions[i], load)
    ensures load < |states[i + 1].loads| && states[i + 1].loads[load] == states[i].loads[load]
  {
    RunInv(states, actions, i);
    var s, a := states[i], actions[i];
    assert states[i + 1] == Apply(s, a);
    if IsResume(a) {
      ResumeTouchesOne(s, a);
      hide IsRun, Inv, IsLinked, Enabled, Apply;
    } else {
      hide IsRun, Inv, Evaluate, LoadRequests, ResumeSource, ResumeRequest, IsLinked, Enabled;
    }
  }

  predicate IsResume(a: Action)
  {
    a.DoResumeSource? || a.DoResumeRequest? || a.DoResumeTurn?
  }

  // A resumed load changes itself and, when it compiles one, adds a module.
  predicate KeepsRest(known: State, s': State, load: nat)
  {
    && |s'.loads| == |known.loads|
    && (forall l :: 0 <= l < |known.loads| && l != load ==> s'.loads[l] == known.loads[l])
    && s'.moduleCache == known.moduleCache && |s'.modules| == |known.modules| && s'.aborted == known.aborted
    && forall m :: 0 <= m < |known.modules| ==> s'.modules[m] == known.modules[m].(status := s'.modules[m].status)
  }

  lemma ResumeTouchesOne(s: State, a: Action)
    requires Inv(s) && IsLinked(s) && Enabled(s, a) && IsResume(a)
    ensures KeepsRest(Known(s, a), Apply(s, a), a.load)
  {
    if !a.DoResumeTurn? && Fails(s, a, a.load) {
      FailureKeepsRest(s, a);
    } else {
      match a
      case DoResumeSource(load, fetch) =>
        SourceOutcome(s, load, fetch);
        AdvanceKeepsRest(Known(s, a), Apply(s, a), load, Known(s, a).moduleCache[s.loads[load].specifier]);
      case DoResumeRequest(load, fetch) =>
        RequestOutcome(s, load, fetch, s.loads[load].position.mod, s.loads[load].position.request);
        AdvanceKeepsRest(Known(s, a), Apply(s, a), load, s.loads[load].position.mod);
      case DoResumeTurn(load) =>
        TurnOutcome(s, load);
        AdvanceKeepsRest(s, Apply(s, a), load, s.loads[load].position.mod);
    }
    hide *;
  }

  lemma AdvanceKeepsRest(known: State, s': State, load: nat, mod: nat)
    requires Advances(known, s', load, mod)
    ensures KeepsRest(known, s', load)
  {
  }

  lemma FailureKeepsRest(s: State, a: Action)
    requires IsLinked(s) && Enabled(s, a) && (a.DoResumeSource? || a.DoResumeRequest?) && Fails(s, a, a.load)
    ensures KeepsRest(Known(s, a), Apply(s, a), a.load)
  {
    hide Evaluate, LoadRequests;
  }

  // A module is compiled exactly when a source that compiles arrives for a
  // specifier without a module, and it enters the cache under that specifier.
  lemma CompilesExactly(states: seq<State>, actions: seq<Action>, i: nat)
    requires IsRun(states, actions) && i < |actions|
    ensures var s, a, s' := states[i], actions[i], states[i + 1];
      if CompilesNew(s, a) then
        && |s'.modules| == |s.modules| + 1
        && s'.modules[|s.modules|].specifier == Brought(s, a).value
        && s'.modules[|s.modules|].requests == a.fetch.requests
        && s'.modules[|s.modules|].entries == 0
        && s'.moduleCache == s.moduleCache[Brought(s, a).value := |s.modules|]
      else |s'.modules| == |s.modules| && s'.moduleCache == s.moduleCache
  {
    RunInv(states, actions, i);
    var s, a := states[i], actions[i];
    assert states[i + 1] == Apply(s, a);
    if IsResume(a) {
      ResumeTouchesOne(s, a);
    } else {
      OtherCompiles(s, a);
    }
    hide IsRun, Inv, IsLinked, Enabled, Apply, Brought, CompilesNew;
  }

  lemma OtherCompiles(s: State, a: Action)
    requires IsLinked(s) && Enabled(s, a) && !IsResume(a)
    ensures var known, s' := Known(s, a), Apply(s, a);
      && s'.moduleCache == known.moduleCache && |s'.modules| == |known.modules|
      && (CompilesNew(s, a) ==>
            s'.modules[|s.modules|] == known.modules[|s.modules|].(status := s'.modules[|s.modules|].status))
  {
    hide Evaluate, LoadRequests, ResumeSource, ResumeRequest;
    if a.DoLink? {
      hide Enabled, IsLinked;
    }
  }

  // The process aborts exactly when linking asks for a specifier without a
  // module whose source cannot be had or does not compile.
  lemma AbortsExactly(states: seq<State>, actions: seq<Action>, i: nat)
    requires IsRun(states, actions) && i < |actions|
    ensures var s, a := states[i], actions[i];
      states[i + 1].aborted <==> a.DoLink? && a.specifier !in s.moduleCache && !a.fetch.Compiles?
  {
    RunInv(states, actions, i);
    var s, a := states[i], actions[i];
    assert states[i + 1] == Apply(s, a) && !s.aborted;
    if IsResume(a) {
      ResumeTouchesOne(s, a);
      hide IsRun, Inv, IsLinked, Apply, Enabled;
    } else {
      OtherAborts(s, a);
      hide *;
    }
  }

  lemma OtherAborts(s: State, a: Action)
    requires IsLinked(s) && Enabled(s, a) && !IsResume(a)
    ensures Apply(s, a).aborted <==> a.DoLink? && a.specifier !in s.moduleCache && !a.fetch.Compiles?
  {
    hide Evaluate, LoadRequests, ResumeSource, ResumeRequest;
  }

  // An import that starts a load takes the module cached for it, one turn later,
  // or fetches its source.
  lemma ImportStarts(states: seq<State>, actions: seq<Action>, i: nat)
    requires IsRun(states, actions) && i < |actions| && |states[i + 1].loads| != |states[i].loads|
    ensures var s, a, s' := states[i], actions[i], states[i + 1];
      && a.DoImport? && a.specifier != "" && |s'.loads| == |s.loads| + 1
      && s'.loads[|s.loads|].specifier == a.specifier && s'.loads[|s.loads|].promise == Pending
      && s'.loads[|s.loads|].position ==
           if a.specifier in s.moduleCache then AwaitTurn(s.moduleCache[a.specifier]) else AwaitSource
  {
    RunInv(states, actions, i);
    var s, a := states[i], actions[i];
    assert states[i + 1] == Apply(s, a);
    if IsResume(a) {
      ResumeTouchesOne(s, a);
    } else if !a.DoImport? {
      OthersStartNone(s, a);
    }
    hide IsRun, Inv, IsLinked, Enabled, ResumeSource, ResumeRequest, ResumeEvaluation, EndLinking, EnterBody, SetStatus,
      ReturnFromEvaluate, OnModuleInstantiate, RunHandler, Evaluate;
  }

  lemma OthersStartNone(s: State, a: Action)
    requires IsLinked(s) && Enabled(s, a) && !IsResume(a) && !a.DoImport?
    ensures |Apply(s, a).loads| == |s.loads|
  {
    hide Evaluate, LoadRequests;
  }

  // A load that goes on waits for the first request without a module. When none
  // is left, or its module was cached while it waited, it ends.
  lemma ResumeExactly(states: seq<State>, actions: seq<Action>, i: nat, load: nat)
    requires IsRun(states, actions) && i < |actions| && load < |states[i].loads|
    requires (IsFetch(actions[i], load) && !Fails(states[i], actions[i], load)) || actions[i] == DoResumeTurn(load)
    ensures var s, a, s' := states[i], actions[i], states[i + 1];
      var l := s.loads[load];
      && |s'.loads| == |s.loads| && l.specifier in s'.moduleCache && s'.moduleCache[l.specifier] < |s'.modules|
      && var mod := s'.moduleCache[l.specifier];
      match l.position
      case AwaitSource =>
        if l.specifier in s.moduleCache then Ends(s, s', load, mod) else Continues(s, s', load, mod, 0)
      case AwaitRequest(_, k) => Continues(s, s', load, mod, k + 1)
      case _ => Ends(s, s', load, mod)
  {
    RunInv(states, actions, i);
    RunInv(states, actions, i + 1);
    var s, a := states[i], actions[i];
    assert states[i + 1] == Apply(s, a);
    hide IsRun, Inv, Ends, Continues;
    match a
    case DoResumeSource(_, fetch) => SourceOutcome(s, load, fetch);
    case DoResumeRequest(_, fetch) =>
      RequestOutcome(s, load, fetch, s.loads[load].position.mod, s.loads[load].position.request);
    case DoResumeTurn(_) => TurnOutcome(s, load);
  }

  // When the promise of the evaluation is fulfilled, so is the import, with the
  // namespace of the module cached for its specifier.
  lemma EvaluatedFulfils(states: seq<State>, actions: seq<Action>, i: nat, load: nat)
    requires IsRun(states, actions) && i < |actions| && actions[i] == DoResumeEvaluation(load, false)
    ensures var s, s' := states[i], states[i + 1];
      && load < |s.loads| == |s'.loads| && s.loads[load].specifier in s'.moduleCache
      && var m := s'.moduleCache[s.loads[load].specifier];
      && s'.loads[load].promise == Fulfilled(Some(m))
      && m < |s'.modules| && s'.modules[m].evaluated && s'.modules[m].namespace == Some(m)
  {
    RunInv(states, actions, i);
    var s := states[i];
    assert states[i + 1] == Apply(s, actions[i]);
    assert LoadOk(s, s.loads[load]);
    hide IsRun;
  }

  // A pending import fails exactly by an action that brings it an error.
  lemma RejectedExactly(states: seq<State>, actions: seq<Action>, i: nat, load: nat)
    requires IsRun(states, actions) && i < |actions| && load < |states[i].loads|
    requires states[i].loads[load].promise == Pending
    ensures load < |states[i + 1].loads|
    ensures states[i + 1].loads[load].promise == Rejected <==> Fails(states[i], actions[i], load)
  {
    RunInv(states, actions, i);
    var s, a := states[i], actions[i];
    assert states[i + 1] == Apply(s, a);
    if !Concerns(s, a, load) {
      OthersUntouched(states, actions, i, load);
      if Fails(s, a, load) {
        FailureConcerns(s, a, load);
      }
      hide *;
    } else if Fails(s, a, load) {
      FailureRejects(s, a, load);
      hide *;
    } else if IsFetch(a, load) || a == DoResumeTurn(load) {
      ResumeExactly(states, actions, i, load);
      hide IsRun, Inv, IsLinked, Apply, Enabled, Concerns, Fails;
    } else {
      OthersPending(s, a, load);
      hide *;
    }
  }

  lemma FailureConcerns(s: State, a: Action, load: nat)
    requires IsLinked(s) && load < |s.loads| && Fails(s, a, load)
    ensures Concerns(s, a, load)
  {
  }

  lemma FailureRejects(s: State, a: Action, load: nat)
    requires IsLinked(s) && Enabled(s, a) && load < |s.loads| && Fails(s, a, load)
    ensures load < |Apply(s, a).loads| && Apply(s, a).loads[load].promise == Rejected
  {
    hide Evaluate, LoadRequests;
  }

  lemma OthersPending(s: State, a: Action, load: nat)
    requires IsLinked(s) && Enabled(s, a) && load < |s.loads| && s.loads[load].promise == Pending
    requires Concerns(s, a, load) && !Fails(s, a, load) && !IsFetch(a, load) && a != DoResumeTurn(load)
    ensures load < |Apply(s, a).loads| && Apply(s, a).loads[load].promise != Rejected
  {
    hide Evaluate, LoadRequests, ResumeSource, ResumeRequest;
  }

  // ---- Modules ----

  // What the action makes of the status of a module that is there already.
  function StatusAfter(s: State, a: Action, entered: bool, mod: nat): Status
    requires mod < |s.modules|
  {
    var status := s.modules[mod].status;
    match a
    case DoEndLinking(linked) =>
      if status != Instantiating then status else if linked then Instantiated else Uninstantiated
    case DoLink(specifier, _) =>
      if status == Uninstantiated && s.modules[mod].specifier == specifier then Instantiating else status
    case DoEnter(m) => if m == mod then Evaluating else status
    case DoLeave(m, outcome) => if m == mod then outcome else status
    case DoSettle(m, outcome) => if m == mod then outcome else status
    case _ => if entered && status == Uninstantiated then Instantiating else status
  }

  // Entered: the action calls evaluateModule for this module.
  predicate Enters(s: State, s': State, mod: nat)
  {
    s.stack.None? && s'.stack.Some? && s'.stack.value.root == mod
  }

  // The action records the module as evaluated.
  predicate Records(s: State, a: Action, mod: nat)
  {
    a.DoResumeEvaluation? && !a.rejected && a.load < |s.loads| && s.loads[a.load].position == AwaitEvaluation(mod)
  }

  lemma StatusesExactly(states: seq<State>, actions: seq<Action>, i: nat, mod: nat)
    requires IsRun(states, actions) && i < |actions| && mod < |states[i].modules|
    ensures var s, a, s' := states[i], actions[i], states[i + 1];
      && mod < |s'.modules|
      && s'.modules[mod].status == StatusAfter(s, a, Enters(s, s', mod), mod)
      && s'.modules[mod].entries == s.modules[mod].entries + (if a == DoEnter(mod) then 1 else 0)
      && s'.modules[mod].evaluated == (s.modules[mod].evaluated || Records(s, a, mod))
  {
    RunInv(states, actions, i);
    var s, a := states[i], actions[i];
    assert states[i + 1] == Apply(s, a);
    hide IsRun;
    if IsResume(a) {
      ResumeStatuses(s, a, mod);
    } else {
      OtherStatuses(s, a, mod);
    }
    hide *;
  }

  lemma OtherStatuses(s: State, a: Action, mod: nat)
    requires Inv(s) && IsLinked(s) && Enabled(s, a) && !IsResume(a) && mod < |s.modules|
    ensures var s' := Apply(s, a);
      && mod < |s'.modules|
      && s'.modules[mod].status == StatusAfter(s, a, Enters(s, s', mod), mod)
      && s'.modules[mod].entries == s.modules[mod].entries + (if a == DoEnter(mod) then 1 else 0)
      && s'.modules[mod].evaluated == (s.modules[mod].evaluated || Records(s, a, mod))
  {
    hide LoadsInv, PositionsInv, FrameInv, ModulesInv;
    if a.DoLink? || a.DoEndLinking? {
      hide Evaluate, LoadRequests, ResumeSource, ResumeRequest, IsLinked;
    } else {
      hide Evaluate, LoadRequests, ResumeSource, ResumeRequest, CacheInv;
    }
  }

  lemma ResumeStatuses(s: State, a: Action, mod: nat)
    requires Inv(s) && IsLinked(s) && Enabled(s, a) && IsResume(a) && mod < |s.modules|
    ensures var s' := Apply(s, a);
      && mod < |s'.modules|
      && s'.modules[mod].status == StatusAfter(s, a, Enters(s, s', mod), mod)
      && s'.modules[mod].entries == s.modules[mod].entries
      && s'.modules[mod].evaluated == s.modules[mod].evaluated
  {
    if !a.DoResumeTurn? && Fails(s, a, a.load) {
      FailureStatuses(s, a);
    } else {
      match a
      case DoResumeSource(load, fetch) =>
        SourceOutcome(s, load, fetch);
        AdvanceStatus(s, Known(s, a), Apply(s, a), load, Known(s, a).moduleCache[s.loads[load].specifier], mod);
      case DoResumeRequest(load, fetch) =>
        RequestOutcome(s, load, fetch, s.loads[load].position.mod, s.loads[load].position.request);
        AdvanceStatus(s, Known(s, a), Apply(s, a), load, s.loads[load].position.mod, mod);
      case DoResumeTurn(load) =>
        TurnOutcome(s, load);
        AdvanceStatus(s, s, Apply(s, a), load, s.loads[load].position.mod, mod);
    }
    hide IsLinked, Inv, Enabled, Apply;
  }

  lemma FailureStatuses(s: State, a: Action)
    requires IsLinked(s) && Enabled(s, a) && (a.DoResumeSource? || a.DoResumeRequest?) && Fails(s, a, a.load)
    ensures Apply(s, a).modules == s.modules && Apply(s, a).stack == s.stack
  {
    hide Evaluate, LoadRequests;
  }

  lemma AdvanceStatus(s: State, known: State, s': State, load: nat, m: nat, mod: nat)
    requires mod < |s.modules| <= |known.modules| && known.modules[..|s.modules|] == s.modules && s.stack.None?
    requires known.loads == s.loads && Advances(known, s', load, m)
    requires Ends(s, s', load, m) || exists i :: Continues(s, s', load, m, i)
    ensures var m', was, entered := s'.modules[mod], s.modules[mod], Enters(s, s', mod);
      && m'.entries == was.entries && m'.evaluated == was.evaluated
      && m'.status == if entered && was.status == Uninstantiated then Instantiating else was.status
  {
    assert known.modules[mod] == s.modules[mod];
    if mod != m {
      assert s'.modules[mod] == known.modules[mod];
    }
  }

  // ---- A successful import ----

  // What happens when a specifier without a module is imported, its source
  // requests nothing, and its module links and runs to its end.
  function Success(load: nat, mod: nat, specifier: Specifier): seq<Action>
  {
    [DoImport(specifier), DoResumeSource(load, Compiles([])), DoEndLinking(true), DoEnter(mod),
     DoLeave(mod, Evaluated), DoReturn(false), DoResumeEvaluation(load, false)]
  }

  ghost predicate CanRun(s: State, plan: seq<Action>)
    decreases |plan|
  {
    plan == [] || (IsLinked(s) && Enabled(s, plan[0]) && CanRun(Apply(s, plan[0]), plan[1..]))
  }

  ghost function Outcome(s: State, plan: seq<Action>): State
    requires CanRun(s, plan)
    decreases |plan|
  {
    if plan == [] then s else Outcome(Apply(s, plan[0]), plan[1..])
  }

  // The state in the course of a successful import.
  function Stage(s: State, specifier: Specifier, position: Position, promise: Promise, status: Status, entries: nat,
                 stack: Option<Frame>): State
  {
    var mod := |s.modules|;
    var done := promise.Fulfilled?;
    s.(loads := s.loads + [Load(specifier, position, promise, 1, false)],
       moduleLoads := s.moduleLoads[specifier := |s.loads|],
       modules := s.modules + [Module(specifier, [], status, if done then Some(mod) else None, done, entries)],
       moduleCache := s.moduleCache[specifier := mod], stack := stack)
  }

  ghost predicate Steps(s: State, a: Action, s': State)
  {
    IsLinked(s) && Enabled(s, a) && Apply(s, a) == s'
  }

  lemma OneMore(s: State, a: Action, s': State, plan: seq<Action>)
    requires Steps(s, a, s') && CanRun(s', plan)
    ensures CanRun(s, [a] + plan) && Outcome(s, [a] + plan) == Outcome(s', plan)
  {
    assert ([a] + plan)[1..] == plan;
    hide IsLinked, Enabled, Apply;
  }

  predicate Ready(s: State, specifier: Specifier)
  {
    && s.stack.None? && !s.aborted && specifier != "" && specifier !in s.moduleLoads && specifier !in s.moduleCache
    && forall m :: 0 <= m < |s.modules| ==> s.modules[m].status !in {Instantiating, Evaluating}
  }

  lemma SuccessStarts(s: State, specifier: Specifier)
    requires Inv(s) && Ready(s, specifier)
    ensures var load, mod := |s.loads|, |s.modules|;
      var started := Apply(s, DoImport(specifier));
      && Steps(s, DoImport(specifier), started) && Inv(started)
      && started.loads == s.loads + [Load(specifier, AwaitSource, Pending, 0, false)]
      && Steps(started, DoResumeSource(load, Compiles([])),
               Stage(s, specifier, Calling(mod), Pending, Instantiating, 0, Some(Frame(load, mod, true))))
  {
    StepInv(s, DoImport(specifier));
    var started := Apply(s, DoImport(specifier));
    InvLinked(started);
    hide Inv, IsLinked;
    assert Enabled(started, DoResumeSource(|s.loads|, Compiles([])));
  }

  lemma SuccessLinks(s: State, specifier: Specifier)
    requires var load, mod := |s.loads|, |s.modules|;
      Inv(Stage(s, specifier, Calling(mod), Pending, Instantiating, 0, Some(Frame(load, mod, true))))
    requires Ready(s, specifier)
    ensures var load, mod := |s.loads|, |s.modules|;
      Steps(Stage(s, specifier, Calling(mod), Pending, Instantiating, 0, Some(Frame(load, mod, true))),
            DoEndLinking(true),
            Stage(s, specifier, Calling(mod), Pending, Instantiated, 0, Some(Frame(load, mod, false))))
  {
    var load, mod := |s.loads|, |s.modules|;
    var s2 := Stage(s, specifier, Calling(mod), Pending, Instantiating, 0, Some(Frame(load, mod, true)));
    InvLinked(s2);
    hide Inv, IsLinked;
    assert ChangeStatus(s2.modules, Instantiating, Instantiated)
        == Stage(s, specifier, Calling(mod), Pending, Instantiated, 0, Some(Frame(load, mod, false))).modules;
  }

  lemma SuccessRuns(s: State, specifier: Specifier, action: Action, before: Status, entries: nat, after: Status)
    requires var load, mod := |s.loads|, |s.modules|;
      Inv(Stage(s, specifier, Calling(mod), Pending, before, entries, Some(Frame(load, mod, false))))
    requires Ready(s, specifier)
    requires (before, entries, after, action) in {
      (Instantiated, 0, Evaluating, DoEnter(|s.modules|)), (Evaluating, 1, Evaluated, DoLeave(|s.modules|, Evaluated))}
    ensures var load, mod := |s.loads|, |s.modules|;
      Steps(Stage(s, specifier, Calling(mod), Pending, before, entries, Some(Frame(load, mod, false))), action,
            Stage(s, specifier, Calling(mod), Pending, after, 1, Some(Frame(load, mod, false))))
  {
    var load, mod := |s.loads|, |s.modules|;
    var s3 := Stage(s, specifier, Calling(mod), Pending, before, entries, Some(Frame(load, mod, false)));
    InvLinked(s3);
    hide Inv, IsLinked;
    assert Apply(s3, action).modules
        == Stage(s, specifier, Calling(mod), Pending, after, 1, Some(Frame(load, mod, false))).modules;
  }

  lemma SuccessSettles(s: State, specifier: Specifier)
    requires Inv(s) && Ready(s, specifier)
    requires Inv(Stage(s, specifier, Calling(|s.modules|), Pending, Evaluated, 1,
                       Some(Frame(|s.loads|, |s.modules|, false))))
    ensures var load, mod := |s.loads|, |s.modules|;
      && Steps(Stage(s, specifier, Calling(mod), Pending, Evaluated, 1, Some(Frame(load, mod, false))), DoReturn(false),
               Stage(s, specifier, AwaitEvaluation(mod), Pending, Evaluated, 1, None))
      && Steps(Stage(s, specifier, AwaitEvaluation(mod), Pending, Evaluated, 1, None), DoResumeEvaluation(load, false),
               Stage(s, specifier, Finished, Fulfilled(Some(mod)), Evaluated, 1, None))
  {
    var load, mod := |s.loads|, |s.modules|;
    var s5 := Stage(s, specifier, Calling(mod), Pending, Evaluated, 1, Some(Frame(load, mod, false)));
    var s6 := Stage(s, specifier, AwaitEvaluation(mod), Pending, Evaluated, 1, None);
    var s7 := Stage(s, specifier, Finished, Fulfilled(Some(mod)), Evaluated, 1, None);
    StepInv(s5, DoReturn(false));
    hide Inv, IsLinked;
    assert Apply(s5, DoReturn(false)).loads == s6.loads;
    InvLinked(s6);
    assert Apply(s6, DoResumeEvaluation(load, false)).loads == s7.loads;
    assert Apply(s6, DoResumeEvaluation(load, false)).modules == s7.modules;
  }

  // From every reachable state with nothing on the stack an import can succeed
  // for each specifier that has no load and no module: also for one whose
  // earlier loads failed for want of a source.
  lemma ImportSucceeds(states: seq<State>, actions: seq<Action>, specifier: Specifier)
    requires IsRun(states, actions) && specifier != ""
    requires var s := states[|actions|];
      s.stack.None? && !s.aborted && specifier !in s.moduleLoads && specifier !in s.moduleCache
    ensures var s := states[|actions|];
      var load, mod := |s.loads|, |s.modules|;
      var plan := Success(load, mod, specifier);
      && CanRun(s, plan)
      && var last := Outcome(s, plan);
      && load < |last.loads| && last.loads[load].specifier == specifier
      && last.loads[load].promise == Fulfilled(Some(mod))
  {
    RunInv(states, actions, |actions|);
    var s := states[|actions|];
    StatusesWithEmptyStack(s);
    assert Ready(s, specifier);
    hide *;
    var load, mod := |s.loads|, |s.modules|;
    SuccessPath(s, specifier);
    Imported(s, specifier);
  }

  lemma SuccessPath(s: State, specifier: Specifier)
    requires Inv(s) && Ready(s, specifier)
    ensures var load, mod := |s.loads|, |s.modules|;
      var plan := Success(load, mod, specifier);
      CanRun(s, plan) && Outcome(s, plan) == Stage(s, specifier, Finished, Fulfilled(Some(mod)), Evaluated, 1, None)
  {
    SuccessStarts(s, specifier);
    var s1 := Apply(s, DoImport(specifier));
    hide *;
    var load, mod := |s.loads|, |s.modules|;
    var linking, running := Some(Frame(load, mod, true)), Some(Frame(load, mod, false));
    var s2 := Stage(s, specifier, Calling(mod), Pending, Instantiating, 0, linking);
    var s3 := Stage(s, specifier, Calling(mod), Pending, Instantiated, 0, running);
    var s4 := Stage(s, specifier, Calling(mod), Pending, Evaluating, 1, running);
    var s5 := Stage(s, specifier, Calling(mod), Pending, Evaluated, 1, running);
    var s6 := Stage(s, specifier, AwaitEvaluation(mod), Pending, Evaluated, 1, None);
    var s7 := Stage(s, specifier, Finished, Fulfilled(Some(mod)), Evaluated, 1, None);
    StepsInv(s1, DoResumeSource(load, Compiles([])), s2);
    SuccessLinks(s, specifier);
    StepsInv(s2, DoEndLinking(true), s3);
    SuccessRuns(s, specifier, DoEnter(mod), Instantiated, 0, Evaluating);
    StepsInv(s3, DoEnter(mod), s4);
    SuccessRuns(s, specifier, DoLeave(mod, Evaluated), Evaluating, 1, Evaluated);
    StepsInv(s4, DoLeave(mod, Evaluated), s5);
    SuccessSettles(s, specifier);
    NoMore(s7);
    OneMore(s6, DoResumeEvaluation(load, false), s7, []);
    var last := [DoResumeEvaluation(load, false)];
    assert last == last + [];
    OneMore(s5, DoReturn(false), s6, last);
    OneMore(s4, DoLeave(mod, Evaluated), s5, [DoReturn(false)] + last);
    SuccessBegins(s, s1, s2, s3, s4, specifier, [DoLeave(mod, Evaluated)] + ([DoReturn(false)] + last));
    SuccessParts(load, mod, specifier);
  }

  lemma SuccessParts(load: nat, mod: nat, specifier: Specifier)
    ensures Success(load, mod, specifier) ==
      [DoImport(specifier)] + ([DoResumeSource(load, Compiles([]))] + ([DoEndLinking(true)] + ([DoEnter(mod)] +
        ([DoLeave(mod, Evaluated)] + ([DoReturn(false)] + [DoResumeEvaluation(load, false)])))))
  {
  }

  lemma SuccessBegins(s: State, s1: State, s2: State, s3: State, s4: State, specifier: Specifier, rest: seq<Action>)
    requires Steps(s, DoImport(specifier), s1) && Steps(s1, DoResumeSource(|s.loads|, Compiles([])), s2)
    requires Steps(s2, DoEndLinking(true), s3) && Steps(s3, DoEnter(|s.modules|), s4) && CanRun(s4, rest)
    ensures var plan := [DoImport(specifier)] + ([DoResumeSource(|s.loads|, Compiles([]))] + ([DoEndLinking(true)] +
        ([DoEnter(|s.modules|)] + rest)));
      CanRun(s, plan) && Outcome(s, plan) == Outcome(s4, rest)
  {
    hide *;
    var enter := [DoEnter(|s.modules|)] + rest;
    var link := [DoEndLinking(true)] + enter;
    OneMore(s3, DoEnter(|s.modules|), s4, rest);
    OneMore(s2, DoEndLinking(true), s3, enter);
    OneMore(s1, DoResumeSource(|s.loads|, Compiles([])), s2, link);
    OneMore(s, DoImport(specifier), s1, [DoResumeSource(|s.loads|, Compiles([]))] + link);
  }

  lemma StepsInv(s: State, a: Action, s': State)
    requires Inv(s) && Steps(s, a, s')
    ensures Inv(s')
  {
    hide Inv, Apply, Enabled, IsLinked;
    StepInv(s, a);
  }

  lemma Imported(s: State, specifier: Specifier)
    ensures var last := Stage(s, specifier, Finished, Fulfilled(Some(|s.modules|)), Evaluated, 1, None);
      && |last.loads| == |s.loads| + 1 && last.loads[|s.loads|].specifier == specifier
      && last.loads[|s.loads|].promise == Fulfilled(Some(|s.modules|))
  {
  }

  lemma NoMore(s: State)
    ensures CanRun(s, []) && Outcome(s, []) == s
  {
  }
}
