// What holds over every run of the module loader: every interleaving of
// imports, awaits, linking, module bodies and rejections.
module LoaderTheorems {
  import opened Prelude
  import opened Loader
  import opened LoaderInvariants

  // ---- Runs ----

  ghost predicate IsRun(states: seq<State>, actions: seq<Action>)
  {
    && |states| == |actions| + 1
    && states[0] == START
    && forall i :: 0 <= i < |actions| ==>
         IsLinked(states[i]) && Enabled(states[i], actions[i]) && states[i + 1] == Apply(states[i], actions[i])
  }

  lemma {:induction false} RunInv(states: seq<State>, actions: seq<Action>, i: nat)
    requires IsRun(states, actions) && i < |states|
    ensures Inv(states[i]) && IsLinked(states[i])
  {
    hide Inv, Enabled, Apply, IsLinked;
    if i == 0 {
      StartInv();
    } else {
      RunInv(states, actions, i - 1);
      StepInv(states[i - 1], actions[i - 1]);
    }
    InvLinked(states[i]);
  }

  // ---- What no action takes back ----

  predicate IsSettled(status: Status)
  {
    status == Evaluated || status == Errored
  }

  ghost predicate CacheGrows(s: State, s': State)
  {
    forall specifier :: specifier in s.moduleCache ==>
      specifier in s'.moduleCache && s'.moduleCache[specifier] == s.moduleCache[specifier]
  }

  ghost predicate ModulesGrow(s: State, s': State)
  {
    && |s.modules| <= |s'.modules|
    && forall i :: 0 <= i < |s.modules| ==>
         && s'.modules[i].specifier == s.modules[i].specifier
         && (IsSettled(s.modules[i].status) ==> s'.modules[i].status == s.modules[i].status)
         && s'.modules[i].entries >= s.modules[i].entries
  }

  ghost predicate LoadsGrow(s: State, s': State)
  {
    && |s.loads| <= |s'.loads|
    && forall i :: 0 <= i < |s.loads| ==>
         && s'.loads[i].specifier == s.loads[i].specifier
         && (s.loads[i].promise != Pending ==> s'.loads[i].promise == s.loads[i].promise)
         && s'.loads[i].calls >= s.loads[i].calls
  }

  ghost predicate Grows(s: State, s': State)
  {
    CacheGrows(s, s') && ModulesGrow(s, s') && LoadsGrow(s, s')
  }

  lemma GrowsThrough(a: State, b: State, c: State)
    requires Grows(a, b) && Grows(b, c)
    ensures Grows(a, c)
  {
  }

  lemma StaysGrows(s: State)
    ensures Grows(s, s)
  {
  }

  lemma EvaluateGrows(s: State, load: nat, mod: nat)
    requires load < |s.loads| && mod < |s.modules| && s.loads[load].promise == Pending
    ensures Grows(s, Evaluate(s, load, mod))
  {
  }

  lemma CompileGrows(s: State, specifier: Specifier, requests: seq<Specifier>)
    requires specifier !in s.moduleCache
    ensures Grows(s, Compile(s, specifier, requests))
  {
  }

  lemma LoadRequestsGrows(s: State, load: nat, mod: nat, i: nat)
    requires load < |s.loads| && mod < |s.modules| && i <= |s.modules[mod].requests|
    requires s.loads[load].promise == Pending
    ensures Grows(s, LoadRequests(s, load, mod, i))
  {
    hide Evaluate;
    EvaluateGrows(s, load, mod);
  }

  lemma ResumeSourceGrows(s: State, load: nat, fetch: Fetch)
    requires IsLinked(s) && load < |s.loads| && s.loads[load].promise == Pending
    ensures Grows(s, ResumeSource(s, load, fetch))
  {
    hide Grows, LoadRequests, Evaluate;
    var specifier := s.loads[load].specifier;
    if fetch.NoSource? {
      RejectGrows(s, load);
    } else if specifier in s.moduleCache {
      EvaluateGrows(s, load, s.moduleCache[specifier]);
    } else if fetch.BadSource? {
      RejectGrows(s, load);
    } else {
      var compiled := Compile(s, specifier, fetch.requests);
      CompileGrows(s, specifier, fetch.requests);
      LoadRequestsGrows(compiled, load, |s.modules|, 0);
      GrowsThrough(s, compiled, LoadRequests(compiled, load, |s.modules|, 0));
    }
  }

  lemma ResumeRequestGrows(s: State, load: nat, fetch: Fetch)
    requires IsLinked(s) && load < |s.loads| && s.loads[load].promise == Pending
    requires s.loads[load].position.AwaitRequest?
    ensures Grows(s, ResumeRequest(s, load, fetch))
  {
    var AwaitRequest(mod, i) := s.loads[load].position;
    var request := s.modules[mod].requests[i];
    hide Grows, LoadRequests, Evaluate;
    if fetch.NoSource? {
      RejectGrows(s, load);
    } else if request in s.moduleCache {
      LoadRequestsGrows(s, load, mod, i + 1);
    } else if fetch.BadSource? {
      RejectGrows(s, load);
    } else {
      var compiled := Compile(s, request, fetch.requests);
      CompileGrows(s, request, fetch.requests);
      LoadRequestsGrows(compiled, load, mod, i + 1);
      GrowsThrough(s, compiled, LoadRequests(compiled, load, mod, i + 1));
    }
  }

  lemma RejectGrows(s: State, load: nat)
    requires load < |s.loads| && s.loads[load].promise == Pending
    ensures Grows(s, Reject(s, load))
  {
  }

  lemma FrameLoadPending(s: State)
    requires Inv(s) && s.stack.Some?
    ensures s.stack.value.load < |s.loads| && s.loads[s.stack.value.load].promise == Pending
  {
    assert LoadOk(s, s.loads[s.stack.value.load]);
  }

  lemma ModuleActionGrows(s: State, a: Action)
    requires IsLinked(s) && Enabled(s, a)
    requires a.DoLink? || a.DoEnter? || a.DoLeave? || a.DoSettle? || a.DoHandler? || a.DoImport?
    ensures Grows(s, Apply(s, a))
  {
  }

  lemma EndLinkingGrows(s: State, linked: bool)
    requires s.stack.Some? && s.stack.value.load < |s.loads| && s.loads[s.stack.value.load].promise == Pending
    ensures Grows(s, EndLinking(s, linked))
  {
  }

  lemma ReturnGrows(s: State, rejected: bool)
    requires s.stack.Some? && s.stack.value.load < |s.loads| && s.stack.value.root < |s.modules|
    requires s.loads[s.stack.value.load].promise == Pending
    ensures Grows(s, ReturnFromEvaluate(s, rejected))
  {
  }

  lemma ResumeEvaluationGrows(s: State, load: nat, rejected: bool)
    requires Inv(s) && IsLinked(s) && Enabled(s, DoResumeEvaluation(load, rejected))
    requires s.loads[load].promise == Pending
    ensures Grows(s, ResumeEvaluation(s, load, rejected))
  {
    hide Inv;
  }

  lemma AwaitActionGrows(s: State, a: Action)
    requires Inv(s) && IsLinked(s) && Enabled(s, a)
    requires a.DoResumeSource? || a.DoResumeRequest? || a.DoResumeTurn? || a.DoResumeEvaluation?
    ensures Grows(s, Apply(s, a))
  {
    assert LoadOk(s, s.loads[a.load]);
    hide Inv, LoadOk, Grows, Evaluate, ResumeSource, ResumeRequest, ResumeEvaluation;
    match a
    case DoResumeSource(load, fetch) => ResumeSourceGrows(s, load, fetch);
    case DoResumeRequest(load, fetch) => ResumeRequestGrows(s, load, fetch);
    case DoResumeTurn(load) => EvaluateGrows(s, load, s.loads[load].position.mod);
    case DoResumeEvaluation(load, rejected) => ResumeEvaluationGrows(s, load, rejected);
  }

  lemma StepGrows(s: State, a: Action)
    requires Inv(s) && IsLinked(s) && Enabled(s, a)
    ensures Grows(s, Apply(s, a))
  {
    hide Inv, Grows, OnModuleLoad, ResumeSource, ResumeRequest, ResumeEvaluation, Evaluate, RunHandler,
      OnModuleInstantiate, EndLinking, EnterBody, SetStatus, ReturnFromEvaluate;
    match a
    case DoResumeSource(_, _) => AwaitActionGrows(s, a);
    case DoResumeRequest(_, _) => AwaitActionGrows(s, a);
    case DoResumeTurn(_) => AwaitActionGrows(s, a);
    case DoResumeEvaluation(_, _) => AwaitActionGrows(s, a);
    case DoEndLinking(linked) =>
      FrameLoadPending(s);
      EndLinkingGrows(s, linked);
    case DoReturn(rejected) =>
      FrameLoadPending(s);
      ReturnGrows(s, rejected);
    case _ => ModuleActionGrows(s, a);
  }

  // Over any stretch of a run the cache only gains entries, a settled promise
  // and a settled module keep their outcome, and nothing is forgotten.
  lemma {:induction false} RunGrows(states: seq<State>, actions: seq<Action>, i: nat, j: nat)
    requires IsRun(states, actions) && i <= j < |states|
    ensures Grows(states[i], states[j])
    decreases j
  {
    hide Inv, Enabled, Apply, IsLinked, Grows;
    if i < j {
      RunGrows(states, actions, i, j - 1);
      RunInv(states, actions, j - 1);
      assert states[j] == Apply(states[j - 1], actions[j - 1]);
      StepGrows(states[j - 1], actions[j - 1]);
      GrowsThrough(states[i], states[j - 1], states[j]);
    } else {
      StaysGrows(states[i]);
    }
  }

  // ---- Compiling ----

  // No specifier is compiled twice and no module body is entered twice, over
  // all interleavings of imports, awaits and linking.
  lemma CompiledOnce(states: seq<State>, actions: seq<Action>, i: nat)
    requires IsRun(states, actions) && i < |states|
    ensures var modules := states[i].modules;
      && (forall m, n :: 0 <= m < n < |modules| ==> modules[m].specifier != modules[n].specifier)
      && (forall m :: 0 <= m < |modules| ==> modules[m].entries <= 1)
  {
    RunInv(states, actions, i);
    hide PositionsInv, LoadsInv, FrameInv, IsRun;
    var s := states[i];
    forall m | 0 <= m < |s.modules|
      ensures s.modules[m].entries <= 1 && s.moduleCache[s.modules[m].specifier] == m
    {
      assert ModuleOk(s, m);
    }
  }

  // A cached module stays the module of its specifier for the rest of the run.
  lemma CachePermanent(states: seq<State>, actions: seq<Action>, i: nat, j: nat, specifier: Specifier)
    requires IsRun(states, actions) && i <= j < |states|
    requires specifier in states[i].moduleCache
    ensures specifier in states[j].moduleCache
    ensures states[j].moduleCache[specifier] == states[i].moduleCache[specifier]
  {
    RunGrows(states, actions, i, j);
    hide IsRun;
  }

  // ---- Evaluating ----

  // evaluateModule is entered only with nothing on the stack, when no module is
  // being linked or evaluated: it is never refused, whatever a module imports
  // while it runs.
  lemma EvaluationNeverNests(states: seq<State>, actions: seq<Action>, i: nat, load: nat)
    requires IsRun(states, actions) && i + 1 < |states| && load < |states[i].loads|
    ensures load < |states[i + 1].loads|
    ensures states[i + 1].refusals == 0
    ensures states[i + 1].loads[load].calls > states[i].loads[load].calls ==>
      && states[i].stack.None?
      && forall m :: 0 <= m < |states[i].modules| ==> states[i].modules[m].status !in {Instantiating, Evaluating}
  {
    var s, a := states[i], actions[i];
    hide Inv, Enabled, Apply, IsLinked;
    RunInv(states, actions, i);
    RunInv(states, actions, i + 1);
    RunGrows(states, actions, i, i + 1);
    assert states[i + 1] == Apply(s, a);
    hide IsRun, CacheGrows, ModulesGrow;
    StatusesWithEmptyStack(s);
    StatusesWithEmptyStack(states[i + 1]);
    if s.stack.Some? {
      CallsKeptOnStack(s, a, load);
    }
  }

  lemma StatusesWithEmptyStack(s: State)
    requires Inv(s)
    ensures s.refusals == 0
    ensures s.stack.None? ==>
      forall m :: 0 <= m < |s.modules| ==> s.modules[m].status !in {Instantiating, Evaluating}
  {
    hide CacheInv, LoadsInv, PositionsInv, FrameInv;
    forall m | 0 <= m < |s.modules| && s.stack.None?
      ensures s.modules[m].status != Instantiating && s.modules[m].status != Evaluating
    {
      assert ModuleOk(s, m);
    }
  }

  lemma CallsKeptOnStack(s: State, a: Action, load: nat)
    requires IsLinked(s) && Enabled(s, a) && s.stack.Some? && load < |s.loads|
    ensures load < |Apply(s, a).loads| && Apply(s, a).loads[load].calls == s.loads[load].calls
  {
    hide NextRequest, LoadRequests, Evaluate;
  }

  // ---- Sharing ----

  // At most one load of a specifier has not been rejected and dropped.
  lemma OneLiveLoad(states: seq<State>, actions: seq<Action>, i: nat, m: nat, n: nat)
    requires IsRun(states, actions) && i < |states| && m < |states[i].loads| && n < |states[i].loads|
    requires m != n && states[i].loads[m].specifier == states[i].loads[n].specifier
    ensures var loads := states[i].loads;
      (loads[m].handled && loads[m].promise == Rejected) || (loads[n].handled && loads[n].promise == Rejected)
  {
    RunInv(states, actions, i);
    hide IsRun;
    assert LoadOk(states[i], states[i].loads[m]) && LoadOk(states[i], states[i].loads[n]);
  }

  // import() returns the promise registered for the specifier. A new load is
  // started only when every earlier one was rejected and dropped.
  lemma ImportShares(states: seq<State>, actions: seq<Action>, i: nat)
    requires IsRun(states, actions) && i < |actions| && actions[i].DoImport?
    ensures var s, s', specifier := states[i], states[i + 1], actions[i].specifier;
      && (specifier == "" || specifier in s.moduleLoads ==> s' == s)
      && (specifier != "" ==> specifier in s'.moduleLoads)
      && (specifier != "" && specifier !in s.moduleLoads ==>
            && |s'.loads| == |s.loads| + 1
            && s'.moduleLoads[specifier] == |s.loads|
            && forall m :: 0 <= m < |s.loads| && s.loads[m].specifier == specifier ==>
                 s.loads[m].promise == Rejected && s.loads[m].handled)
  {
    RunInv(states, actions, i);
    var s, specifier := states[i], actions[i].specifier;
    assert states[i + 1] == Apply(s, actions[i]);
    hide IsRun;
    forall m | 0 <= m < |s.loads| && s.loads[m].specifier == specifier && specifier !in s.moduleLoads
      ensures s.loads[m].promise == Rejected && s.loads[m].handled
    {
      assert LoadOk(s, s.loads[m]);
    }
  }

  // A rejection handler drops the load that registered it.
  lemma HandlerDropsItsOwnLoad(states: seq<State>, actions: seq<Action>, i: nat)
    requires IsRun(states, actions) && i < |actions| && actions[i].DoHandler?
    ensures var s, load := states[i], actions[i].load;
      && load < |s.loads| && s.loads[load].promise == Rejected
      && s.loads[load].specifier in s.moduleLoads && s.moduleLoads[s.loads[load].specifier] == load
      && states[i + 1].moduleLoads == s.moduleLoads - {s.loads[load].specifier}
  {
    RunInv(states, actions, i);
    assert states[i + 1] == Apply(states[i], actions[i]);
    hide IsRun;
    RunHandlerInv(states[i], actions[i].load);
  }

  // ---- Results ----

  // A fulfilled import stays registered with its result for the rest of the
  // run: the namespace of the cached module, which has finished running.
  lemma FulfilledPermanent(states: seq<State>, actions: seq<Action>, i: nat, j: nat, load: nat)
    requires IsRun(states, actions) && i <= j < |states|
    requires load < |states[i].loads| && states[i].loads[load].promise.Fulfilled?
    ensures var s, specifier := states[j], states[i].loads[load].specifier;
      && load < |s.loads| && s.loads[load].promise == states[i].loads[load].promise
      && specifier in s.moduleLoads && s.moduleLoads[specifier] == load
      && specifier in s.moduleCache && s.loads[load].promise == Fulfilled(Some(s.moduleCache[specifier]))
      && s.moduleCache[specifier] < |s.modules| && s.modules[s.moduleCache[specifier]].status == Evaluated
  {
    RunGrows(states, actions, i, j);
    RunInv(states, actions, j);
    hide IsRun;
    var s := states[j];
    assert LoadOk(s, s.loads[load]);
    assert ModuleOk(s, s.loads[load].promise.namespace.value);
  }

  // A module whose code threw makes every import of it fail, before and after.
  lemma ErroredNeverFulfils(states: seq<State>, actions: seq<Action>, i: nat, j: nat, mod: nat, load: nat)
    requires IsRun(states, actions) && i < |states| && j < |states|
    requires mod < |states[i].modules| && states[i].modules[mod].status == Errored
    requires load < |states[j].loads| && states[j].loads[load].specifier == states[i].modules[mod].specifier
    ensures !states[j].loads[load].promise.Fulfilled?
  {
    var last := if i <= j then j else i;
    RunGrows(states, actions, i, last);
    RunGrows(states, actions, j, last);
    RunInv(states, actions, last);
    var s := states[last];
    hide IsRun, PositionsInv, LoadsInv, FrameInv;
    assert s.modules[mod].specifier in s.moduleCache && s.moduleCache[s.modules[mod].specifier] == mod;
    hide Inv;
    if states[j].loads[load].promise.Fulfilled? {
      FulfilledPermanent(states, actions, j, last, load);
    }
  }

  // ---- Counting ----

  function CallsFor(loads: seq<Load>, specifier: Specifier): nat
  {
    if loads == [] then 0
    else
      var last := loads[|loads| - 1];
      CallsFor(loads[..|loads| - 1], specifier) + if last.specifier == specifier then last.calls else 0
  }

  function RejectedFor(loads: seq<Load>, specifier: Specifier): nat
  {
    if loads == [] then 0
    else
      var last := loads[|loads| - 1];
      RejectedFor(loads[..|loads| - 1], specifier) +
      if last.specifier == specifier && last.promise == Rejected then 1 else 0
  }

  // Loads of the specifier that are not rejected.
  function OpenFor(loads: seq<Load>, specifier: Specifier): nat
  {
    if loads == [] then 0
    else
      var last := loads[|loads| - 1];
      OpenFor(loads[..|loads| - 1], specifier) +
      if last.specifier == specifier && last.promise != Rejected then 1 else 0
  }

  lemma {:induction false} CallsByLoads(loads: seq<Load>, specifier: Specifier)
    requires forall i :: 0 <= i < |loads| ==> loads[i].calls <= 1
    ensures CallsFor(loads, specifier) <= OpenFor(loads, specifier) + RejectedFor(loads, specifier)
  {
    if loads != [] {
      CallsByLoads(loads[..|loads| - 1], specifier);
    }
  }

  lemma {:induction false} OneOpen(loads: seq<Load>, specifier: Specifier)
    requires forall m, n :: 0 <= m < n < |loads| && loads[m].specifier == specifier == loads[n].specifier ==>
      loads[m].promise == Rejected || loads[n].promise == Rejected
    ensures OpenFor(loads, specifier) <= 1
  {
    if loads != [] {
      var last := loads[|loads| - 1];
      OneOpen(loads[..|loads| - 1], specifier);
      if last.specifier == specifier && last.promise != Rejected {
        NoneOpen(loads[..|loads| - 1], specifier);
      }
    }
  }

  lemma {:induction false} NoneOpen(loads: seq<Load>, specifier: Specifier)
    requires forall m :: 0 <= m < |loads| && loads[m].specifier == specifier ==> loads[m].promise == Rejected
    ensures OpenFor(loads, specifier) == 0
  {
    if loads != [] {
      NoneOpen(loads[..|loads| - 1], specifier);
    }
  }

  // evaluateModule is called for a specifier at most once more than loads of it
  // were rejected.
  lemma CallsBounded(states: seq<State>, actions: seq<Action>, i: nat, specifier: Specifier)
    requires IsRun(states, actions) && i < |states|
    ensures CallsFor(states[i].loads, specifier) <= 1 + RejectedFor(states[i].loads, specifier)
  {
    RunInv(states, actions, i);
    var loads := states[i].loads;
    forall m | 0 <= m < |loads| ensures loads[m].calls <= 1 {
      assert LoadOk(states[i], loads[m]);
    }
    forall m, n | 0 <= m < n < |loads| && loads[m].specifier == specifier == loads[n].specifier
      ensures loads[m].promise == Rejected || loads[n].promise == Rejected
    {
      OneLiveLoad(states, actions, i, m, n);
    }
    CallsByLoads(loads, specifier);
    OneOpen(loads, specifier);
  }
}
