// The module loader as an object: the Maps and records of main.js and the
// module table of lo.cc, updated in place. Every method does what the state
// machine of Loader does, and so keeps its invariant.
module ModuleLoader {
  import opened Prelude
  import L = Loader
  import opened LoaderInvariants

  class Loader {
    var moduleLoads: map<L.Specifier, nat>
    var moduleCache: map<L.Specifier, nat>
    var loads: seq<L.Load>
    var modules: seq<L.Module>
    var stack: Option<L.Frame>
    var refusals: nat
    var aborted: bool

    ghost function Snapshot(): L.State
      reads this
    {
      L.State(moduleLoads, moduleCache, loads, modules, stack, refusals, aborted)
    }

    ghost predicate Valid()
      reads this
    {
      Inv(Snapshot())
    }

    ghost predicate CanDo(a: L.Action)
      reads this
    {
      Valid() && L.Enabled(Snapshot(), a)
    }

    constructor ()
      ensures Valid() && Snapshot() == L.START
    {
      moduleLoads, moduleCache, loads, modules := map[], map[], [], [];
      stack, refusals, aborted := None, 0, false;
      new;
      StartInv();
    }

    // on_module_load: the promise of import(), none for an empty specifier.
    method OnModuleLoad(specifier: L.Specifier) returns (promise: Option<nat>)
      requires CanDo(L.DoImport(specifier))
      modifies this
      ensures Valid() && Snapshot() == L.OnModuleLoad(old(Snapshot()), specifier)
      ensures promise.None? <==> specifier == ""
      ensures promise.Some? ==> specifier in moduleLoads && moduleLoads[specifier] == promise.value
    {
      StepInv(Snapshot(), L.DoImport(specifier));
      if specifier == "" {
        return None;
      }
      if specifier in moduleLoads {
        return Some(moduleLoads[specifier]);
      }
      var load := |loads|;
      var position := if specifier in moduleCache then L.AwaitTurn(moduleCache[specifier]) else L.AwaitSource;
      loads := loads + [L.Load(specifier, position, L.Pending, 0, false)];
      moduleLoads := moduleLoads[specifier := load];
      return Some(load);
    }

    method Reject(load: nat)
      requires load < |loads|
      modifies `loads
      ensures Snapshot() == L.Reject(old(Snapshot()), load)
    {
      loads := loads[load := loads[load].(position := L.Finished, promise := L.Rejected)];
    }

    // loadModule of lo.cc, and the moduleCache.set that follows every call of it.
    method LoadModule(specifier: L.Specifier, requests: seq<L.Specifier>) returns (identity: nat)
      modifies `modules, `moduleCache
      ensures Snapshot() == L.Compile(old(Snapshot()), specifier, requests)
      ensures identity == |old(modules)|
    {
      identity := |modules|;
      modules := modules + [L.Module(specifier, requests, L.Uninstantiated, None, false, 0)];
      moduleCache := moduleCache[specifier := identity];
    }

    // The end of load_and_evaluate, up to the bodies that evaluateModule runs.
    method Evaluate(load: nat, mod: nat)
      requires load < |loads| && mod < |modules|
      modifies this
      ensures Snapshot() == L.Evaluate(old(Snapshot()), load, mod)
    {
      if modules[mod].evaluated {
        loads := loads[load := loads[load].(position := L.Finished, promise := L.Fulfilled(modules[mod].namespace))];
        return;
      }
      loads := loads[load := loads[load].(calls := loads[load].calls + 1)];
      var status := modules[mod].status;
      if status == L.Instantiating || status == L.Evaluating {
        refusals := refusals + 1;
        Reject(load);
        return;
      }
      loads := loads[load := loads[load].(position := L.Calling(mod))];
      if status == L.Uninstantiated {
        modules := modules[mod := modules[mod].(status := L.Instantiating)];
      }
      stack := Some(L.Frame(load, mod, status == L.Uninstantiated));
    }

    // The loop over mod.requests, from position i to its next await.
    method LoadRequests(load: nat, mod: nat, i: nat)
      requires load < |loads| && mod < |modules| && i <= |modules[mod].requests|
      modifies this
      ensures Snapshot() == L.LoadRequests(old(Snapshot()), load, mod, i)
    {
      var next := i;
      while next < |modules[mod].requests| && modules[mod].requests[next] in moduleCache
        invariant i <= next <= |modules[mod].requests|
        invariant Snapshot() == old(Snapshot())
        invariant L.NextRequest(Snapshot(), modules[mod].requests, next)
               == L.NextRequest(Snapshot(), modules[mod].requests, i)
      {
        next := next + 1;
      }
      if next < |modules[mod].requests| {
        loads := loads[load := loads[load].(position := L.AwaitRequest(mod, next))];
      } else {
        Evaluate(load, mod);
      }
    }

    // load_and_evaluate resumes with the source of its module.
    method ResumeSource(load: nat, fetch: L.Fetch)
      requires CanDo(L.DoResumeSource(load, fetch))
      modifies this
      ensures Valid() && L.IsLinked(old(Snapshot())) && Snapshot() == L.ResumeSource(old(Snapshot()), load, fetch)
    {
      StepInv(Snapshot(), L.DoResumeSource(load, fetch));
      hide Inv;
      var specifier := loads[load].specifier;
      if fetch.NoSource? {
        Reject(load);
        return;
      }
      if specifier in moduleCache {
        Evaluate(load, moduleCache[specifier]);
        return;
      }
      if fetch.BadSource? {
        Reject(load);
        return;
      }
      var mod := LoadModule(specifier, fetch.requests);
      LoadRequests(load, mod, 0);
    }

    // load_and_evaluate resumes with the source of a request.
    method ResumeRequest(load: nat, fetch: L.Fetch)
      requires CanDo(L.DoResumeRequest(load, fetch))
      modifies this
      ensures Valid() && L.IsLinked(old(Snapshot())) && Snapshot() == L.ResumeRequest(old(Snapshot()), load, fetch)
    {
      StepInv(Snapshot(), L.DoResumeRequest(load, fetch));
      hide Inv;
      LoadRequest(load, fetch);
    }

    // The loop over mod.requests goes on with the source it waited for.
    method LoadRequest(load: nat, fetch: L.Fetch)
      requires load < |loads| && loads[load].position.AwaitRequest? && loads[load].position.mod < |modules|
      requires loads[load].position.request < |modules[loads[load].position.mod].requests|
      modifies this
      ensures Snapshot() == L.ResumeRequest(old(Snapshot()), load, fetch)
    {
      var mod, i := loads[load].position.mod, loads[load].position.request;
      var request := modules[mod].requests[i];
      if fetch.NoSource? {
        Reject(load);
        return;
      }
      if request !in moduleCache {
        if fetch.BadSource? {
          Reject(load);
          return;
        }
        var _ := LoadModule(request, fetch.requests);
      }
      LoadRequests(load, mod, i + 1);
    }

    // load_and_evaluate resumes after its await of null.
    method ResumeTurn(load: nat)
      requires CanDo(L.DoResumeTurn(load))
      modifies this
      ensures Valid() && L.IsLinked(old(Snapshot()))
      ensures Snapshot() == L.Evaluate(old(Snapshot()), load, old(loads[load].position.mod))
    {
      StepInv(Snapshot(), L.DoResumeTurn(load));
      hide Inv;
      Evaluate(load, loads[load].position.mod);
    }

    // load_and_evaluate resumes after evaluateModule.
    method ResumeEvaluation(load: nat, rejected: bool)
      requires CanDo(L.DoResumeEvaluation(load, rejected))
      modifies this
      ensures Valid() && L.IsLinked(old(Snapshot()))
      ensures Snapshot() == L.ResumeEvaluation(old(Snapshot()), load, rejected)
    {
      StepInv(Snapshot(), L.DoResumeEvaluation(load, rejected));
      hide Inv;
      var mod := loads[load].position.mod;
      if rejected {
        Reject(load);
        return;
      }
      modules := modules[mod := modules[mod].(namespace := Some(mod), evaluated := true)];
      loads := loads[load := loads[load].(position := L.Finished, promise := L.Fulfilled(modules[mod].namespace))];
    }

    // The rejection handler of a load.
    method RunHandler(load: nat)
      requires CanDo(L.DoHandler(load))
      modifies this
      ensures Valid() && Snapshot() == L.RunHandler(old(Snapshot()), load)
    {
      StepInv(Snapshot(), L.DoHandler(load));
      hide Inv;
      moduleLoads := moduleLoads - {loads[load].specifier};
      loads := loads[load := loads[load].(handled := true)];
    }

    // on_module_instantiate, and V8 taking the module into the graph it links.
    method OnModuleInstantiate(specifier: L.Specifier, fetch: L.Fetch) returns (identity: Option<nat>)
      requires CanDo(L.DoLink(specifier, fetch))
      modifies this
      ensures Valid() && L.IsLinked(old(Snapshot()))
      ensures Snapshot() == L.OnModuleInstantiate(old(Snapshot()), specifier, fetch)
      ensures identity.None? <==> aborted
      ensures identity.Some? ==> specifier in moduleCache && moduleCache[specifier] == identity.value
    {
      StepInv(Snapshot(), L.DoLink(specifier, fetch));
      hide Inv;
      var mod: nat;
      if specifier in moduleCache {
        mod := moduleCache[specifier];
      } else if fetch.Compiles? {
        mod := LoadModule(specifier, fetch.requests);
      } else {
        aborted := true;
        return None;
      }
      if modules[mod].status == L.Uninstantiated {
        modules := modules[mod := modules[mod].(status := L.Instantiating)];
      }
      return Some(mod);
    }

    // EvaluateModule returns to load_and_evaluate, or throws.
    method ReturnFromEvaluate(rejected: bool)
      requires CanDo(L.DoReturn(rejected))
      modifies this
      ensures Valid() && L.IsLinked(old(Snapshot())) && Snapshot() == L.ReturnFromEvaluate(old(Snapshot()), rejected)
    {
      StepInv(Snapshot(), L.DoReturn(rejected));
      hide Inv;
      var frame := stack.value;
      if rejected {
        Reject(frame.load);
      } else {
        loads := loads[frame.load := loads[frame.load].(position := L.AwaitEvaluation(frame.root))];
      }
      stack := None;
    }
  }
}
