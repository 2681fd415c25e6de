// What the guard analysis of lib/parse.js guarantees about runs.
module GuardTheorems {
  import opened Prelude
  import opened Guards

  // ---- Runtime guards ----

  // A member chain that starts at an absent global never yields a value.
  lemma {:induction false} AbsentChain(e: Node, p: Platform, v: Value)
    requires MayEval(e, p, Normal(v)) && e.Member?
    requires var root := MemberRoot(e);
      root.Member? && root.base == Identifier("globalThis") &&
      (root.property == Named("Deno") || root.property == Named("Bun"))
    ensures v == Undefined || v == Cut
  {
    if e.base.Member? {
      var o :| MayEval(e.base, p, o) &&
        if o.Throw? then false
        else if o.value.Cut? then v == Cut
        else if IsNullish(o.value) then Normal(v) == (if e.optional then Normal(Cut) else Throw)
        else e.property.Computed? || MayRead(e.base, e.property.name, p, Normal(v));
      AbsentChain(e.base, p, o.value);
    }
  }

  lemma ChainOnLoSound(e: Node, p: Platform, v: Value)
    requires MayEval(e, p, Normal(v)) && (e.Member? || e.Chain?)
    ensures ChainOnLo(e) == Surely(true) || ChainOnLo(e) == NotBoolean ==> Truthy(v)
    ensures ChainOnLo(e) == Surely(false) ==> !Truthy(v)
  {
    var inner := if e.Chain? then e.expression else e;
    if e.Chain? && ChainOnLo(e) != Unknown {
      var o :| MayEval(inner, p, o) && Normal(v) == if o == Normal(Cut) then Normal(Undefined) else o;
      if ChainOnLo(e) == Surely(false) {
        AbsentChain(inner, p, o.value);
      }
    } else if ChainOnLo(e) == Surely(false) {
      AbsentChain(e, p, v);
    }
  }

  // An answer of OnLo is the truth value of every evaluation that completes.
  lemma {:induction false} OnLoSound(e: Node, p: Platform, v: Value)
    requires MayEval(e, p, Normal(v))
    ensures OnLo(e) == Surely(true) || OnLo(e) == NotBoolean ==> Truthy(v)
    ensures OnLo(e) == Surely(false) ==> !Truthy(v)
  {
    match e
    case Member(_, _, _) => ChainOnLoSound(e, p, v);
    case Chain(_) => ChainOnLoSound(e, p, v);
    case Not(argument) =>
      var a :| MayEval(argument, p, a) && Normal(v) == if a.Throw? then Throw else Normal(Boolean(!Truthy(a.value)));
      OnLoSound(argument, p, a.value);
    case Logical(op, left, right) =>
      var a :| MayEval(left, p, a) &&
        if a.Normal? && TakesRight(op, a.value) then MayEval(right, p, Normal(v)) else Normal(v) == a;
      OnLoSound(left, p, a.value);
      if TakesRight(op, a.value) {
        OnLoSound(right, p, v);
      }
    case Paren(expression) => OnLoSound(expression, p, v);
    case _ =>
  }

  // Modulo parentheses, globalThis.name with a name that all objects inherit.
  predicate IsInheritedGlobal(e: Node)
  {
    match e
    case Member(base, Named(name), _) => base == Identifier("globalThis") && name in INHERITED
    case Chain(Member(base, Named(name), _)) => base == Identifier("globalThis") && name in INHERITED
    case Paren(expression) => IsInheritedGlobal(expression)
    case _ => false
  }

  lemma {:induction false} NotBooleanExactly(e: Node)
    ensures OnLo(e) == NotBoolean <==> IsInheritedGlobal(e)
  {
    match e
    case Paren(expression) => NotBooleanExactly(expression);
    case Member(base, _, _) =>
      MemberRootIsPart(base);
    case Chain(expression) =>
      if expression.Member? {
        MemberRootIsPart(expression.base);
      }
    case _ =>
  }

  lemma {:induction false} MemberRootIsPart(e: Node)
    ensures MemberRoot(e) == e || MemberRoot(e) < e
    ensures MemberRoot(e).Member? ==> !MemberRoot(e).base.Member?
  {
    if e.Member? && e.base.Member? {
      MemberRootIsPart(e.base);
    }
  }

  // ---- Platform guards ----

  lemma OsRefValue(e: Node, p: Platform, v: Value)
    requires IsOsRef(e) && MayEval(e, p, Normal(v)) && v != Cut
    ensures v == Text(PlatformName(p))
  {
  }

  lemma ComparisonSound(e: Node, p: Platform, v: Value)
    requires MayEval(e, p, Normal(v)) && e.Binary?
    ensures Truthy(v) && WhenTrue(e).Some? ==> p in WhenTrue(e).value
    ensures !Truthy(v) && WhenFalse(e).Some? ==> p in WhenFalse(e).value
  {
    var a, b :| MayEval(e.left, p, a) && MayEval(e.right, p, b) &&
      if a.Throw? || b.Throw? then false
      else !a.value.Cut? && !b.value.Cut? && MayCompare(e.comparison, a.value, b.value, Normal(v));
    if IsOsRef(e.left) && IsPlatform(e.right) {
      OsRefValue(e.left, p, a.value);
      assert b.value == Text(e.right.text);
      EqualityExactly(e, p, v, e.right.text);
    } else if IsOsRef(e.right) && IsPlatform(e.left) {
      OsRefValue(e.right, p, b.value);
      assert a.value == Text(e.left.text);
      EqualityExactly(e, p, v, e.left.text);
    }
  }

  lemma EqualityExactly(e: Node, p: Platform, v: Value, name: string)
    requires e.Binary?
    requires if IsOsRef(e.left) && IsPlatform(e.right) then name == e.right.text
             else IsOsRef(e.right) && IsPlatform(e.left) && name == e.left.text
    requires MayCompare(e.comparison, Text(PlatformName(p)), Text(name), Normal(v)) ||
             MayCompare(e.comparison, Text(name), Text(PlatformName(p)), Normal(v))
    ensures Truthy(v) && WhenTrue(e).Some? ==> p in WhenTrue(e).value
    ensures !Truthy(v) && WhenFalse(e).Some? ==> p in WhenFalse(e).value
  {
    hide PlatformName, IsOsRef, IsPlatform;
    EveryPlatform({p});
  }

  lemma {:induction false} ConstraintsSound(e: Node, p: Platform, v: Value)
    requires MayEval(e, p, Normal(v))
    ensures Truthy(v) && WhenTrue(e).Some? ==> p in WhenTrue(e).value
    ensures !Truthy(v) && WhenFalse(e).Some? ==> p in WhenFalse(e).value
  {
    match e
    case Binary(_, _, _) => ComparisonSound(e, p, v);
    case Not(argument) =>
      var a :| MayEval(argument, p, a) && Normal(v) == if a.Throw? then Throw else Normal(Boolean(!Truthy(a.value)));
      ConstraintsSound(argument, p, a.value);
    case Logical(op, left, right) =>
      var a :| MayEval(left, p, a) &&
        if a.Normal? && TakesRight(op, a.value) then MayEval(right, p, Normal(v)) else Normal(v) == a;
      ConstraintsSound(left, p, a.value);
      if TakesRight(op, a.value) {
        ConstraintsSound(right, p, v);
      }
    case Paren(expression) => ConstraintsSound(expression, p, v);
    case _ =>
  }

  // ---- Paths ----

  // A run on platform p may go down this path.
  ghost predicate MayTake(step: Step, p: Platform)
  {
    match step
    case Guarding(test, branch) => MayBe(test, p, branch)
    case Fallback(test) => MayGoRight(Nullish, test, p)
    case NoGuard => true
  }

  ghost predicate MayFollow(path: seq<Step>, p: Platform)
  {
    forall i :: 0 <= i < |path| ==> MayTake(path[i], p)
  }

  // A guard of the path takes the true branch of a test that is just an
  // inherited member of the global object.
  predicate HasInheritedGuard(path: seq<Step>)
  {
    exists i :: 0 <= i < |path| && path[i].Guarding? && path[i].branch && IsInheritedGlobal(path[i].test)
  }

  lemma StepSound(platforms: set<Platform>, step: Step, p: Platform)
    requires p in platforms && step.Guarding? && MayTake(step, p)
    ensures p in Narrow(platforms, step)
    ensures OnLo(step.test) == Unknown || OnLo(step.test) == Surely(step.branch) <==>
            !(step.branch && IsInheritedGlobal(step.test))
  {
    var v :| MayEval(step.test, p, Normal(v)) && Truthy(v) == step.branch;
    ConstraintsSound(step.test, p, v);
    OnLoSound(step.test, p, v);
    NotBooleanExactly(step.test);
  }

  // A platform on which a run follows the path survives the narrowing exactly
  // when no guard of the path is an inherited member of the global object.
  lemma {:induction false} GuardedExactly(platforms: set<Platform>, path: seq<Step>, p: Platform)
    requires p in platforms && MayFollow(path, p)
    ensures p in Guarded(platforms, path) <==> !HasInheritedGuard(path)
  {
    if path != [] {
      var rest := path[1..];
      assert HasInheritedGuard(path) <==>
        (path[0].Guarding? && path[0].branch && IsInheritedGlobal(path[0].test)) || HasInheritedGuard(rest) by {
        assert forall i :: 0 <= i < |rest| ==> rest[i] == path[i + 1];
        if i :| 0 <= i < |path| && path[i].Guarding? && path[i].branch && IsInheritedGlobal(path[i].test) {
          assert i == 0 || path[i] == rest[i - 1];
        }
      }
      assert MayTake(path[0], p);
      if path[0].Guarding? {
        StepSound(platforms, path[0], p);
        GuardedExactly(Narrow(platforms, path[0]), rest, p);
      } else {
        GuardedExactly(platforms, rest, p);
      }
    }
  }

  // Narrowing a set of platforms keeps those that narrowing all of them keeps.
  lemma {:induction false} GuardedIntersects(platforms: set<Platform>, path: seq<Step>)
    ensures Guarded(platforms, path) == platforms * Guarded(PLATFORMS, path)
    decreases |path|
  {
    EveryPlatform(platforms);
    if path != [] {
      GuardedIntersects(platforms, path[1..]);
      if path[0].Guarding? {
        GuardedIntersects(Narrow(platforms, path[0]), path[1..]);
        GuardedIntersects(Narrow(PLATFORMS, path[0]), path[1..]);
      }
    }
  }

  lemma EveryPlatform(platforms: set<Platform>)
    ensures platforms <= PLATFORMS
  {
    forall p | p in platforms ensures p in PLATFORMS {
      match p
      case Linux =>
      case Mac =>
      case Win =>
    }
  }

  // ---- Whole programs ----

  ghost predicate Reaches(found: seq<Found>, p: Platform, event: Event)
  {
    exists i :: 0 <= i < |found| && found[i].event == event && MayFollow(found[i].path, p)
  }

  lemma ReachesConcat(a: seq<Found>, b: seq<Found>, p: Platform, event: Event)
    ensures Reaches(a + b, p, event) <==> Reaches(a, p, event) || Reaches(b, p, event)
  {
    hide MayFollow;
    if i :| 0 <= i < |a| && a[i].event == event && MayFollow(a[i].path, p) {
      assert (a + b)[i] == a[i];
    }
    if i :| 0 <= i < |b| && b[i].event == event && MayFollow(b[i].path, p) {
      assert (a + b)[|a| + i] == b[i];
    }
  }

  lemma MayFollowBelow(step: Step, path: seq<Step>, p: Platform)
    ensures MayFollow([step] + path, p) <==> MayTake(step, p) && MayFollow(path, p)
  {
    hide MayTake;
    var longer := [step] + path;
    assert longer[0] == step && forall j :: 0 <= j < |path| ==> longer[j + 1] == path[j];
  }

  lemma ReachesBelow(step: Step, found: seq<Found>, p: Platform, event: Event)
    ensures Reaches(Below(step, found), p, event) <==> MayTake(step, p) && Reaches(found, p, event)
  {
    hide MayTake, MayFollow;
    forall i | 0 <= i < |found|
      ensures MayFollow(Below(step, found)[i].path, p) <==> MayTake(step, p) && MayFollow(found[i].path, p)
    {
      MayFollowBelow(step, found[i].path, p);
    }
    if Reaches(found, p, event) && MayTake(step, p) {
      var i :| 0 <= i < |found| && found[i].event == event && MayFollow(found[i].path, p);
      assert Below(step, found)[i].event == event;
    }
  }

  // The walk finds every event that some run executes, and nothing else: an
  // event is executed on p exactly when a run on p may follow a path to it.
  lemma {:induction false} SitesAdequate(node: Node, p: Platform, event: Event)
    ensures MayRun(node, p, event) <==> Reaches(Sites(node), p, event)
    decreases node, 1
  {
    match node
    case Identifier(_) =>
    case StringLiteral(_) =>
    case Member(base, property, _) =>
      SitesAdequate(base, p, event);
      ReachesBelow(NoGuard, Sites(base), p, event);
      if property.Computed? {
        SitesAdequate(property.index, p, event);
        ReachesBelow(NoGuard, Sites(property.index), p, event);
        ReachesConcat(Below(NoGuard, Sites(base)), Below(NoGuard, Sites(property.index)), p, event);
      }
    case Chain(expression) =>
      SitesAdequate(expression, p, event);
      ReachesBelow(NoGuard, Sites(expression), p, event);
    case Binary(_, left, right) =>
      SitesAdequate(left, p, event);
      SitesAdequate(right, p, event);
      ReachesBelow(NoGuard, Sites(left), p, event);
      ReachesBelow(NoGuard, Sites(right), p, event);
      ReachesConcat(Below(NoGuard, Sites(left)), Below(NoGuard, Sites(right)), p, event);
    case Logical(op, left, right) =>
      SitesAdequate(left, p, event);
      SitesAdequate(right, p, event);
      ReachesBelow(NoGuard, Sites(left), p, event);
      ReachesBelow(RightStep(op, left), Sites(right), p, event);
      ReachesConcat(Below(NoGuard, Sites(left)), Below(RightStep(op, left), Sites(right)), p, event);
    case Not(argument) =>
      SitesAdequate(argument, p, event);
      ReachesBelow(NoGuard, Sites(argument), p, event);
    case Paren(expression) =>
      SitesAdequate(expression, p, event);
      ReachesBelow(NoGuard, Sites(expression), p, event);
    case Branch(test, consequent, alternate) =>
      SitesAdequate(test, p, event);
      SitesAdequate(consequent, p, event);
      SitesAdequate(alternate, p, event);
      ReachesBelow(NoGuard, Sites(test), p, event);
      ReachesBelow(Guarding(test, true), Sites(consequent), p, event);
      ReachesBelow(Guarding(test, false), Sites(alternate), p, event);
      ReachesConcat(Below(NoGuard, Sites(test)), Below(Guarding(test, true), Sites(consequent)), p, event);
      ReachesConcat(Below(NoGuard, Sites(test)) + Below(Guarding(test, true), Sites(consequent)),
                    Below(Guarding(test, false), Sites(alternate)), p, event);
    case Site(e) =>
      assert Sites(node)[0] == Found(e, []) && MayFollow([], p);
    case Other(children) => SitesOfAllAdequate(children, p, event);
  }

  lemma {:induction false} SitesOfAllAdequate(nodes: seq<Node>, p: Platform, event: Event)
    ensures (exists child :: child in nodes && MayRun(child, p, event)) <==> Reaches(SitesOfAll(nodes), p, event)
    decreases nodes, 0
  {
    if nodes != [] {
      SitesAdequate(nodes[0], p, event);
      SitesOfAllAdequate(nodes[1..], p, event);
      ReachesBelow(NoGuard, Sites(nodes[0]), p, event);
      ReachesConcat(Below(NoGuard, Sites(nodes[0])), SitesOfAll(nodes[1..]), p, event);
    }
  }

  predicate HasInheritedGuards(node: Node)
  {
    exists i :: 0 <= i < |Sites(node)| && HasInheritedGuard(Sites(node)[i].path)
  }

  predicate Reports(found: seq<Found>, platforms: set<Platform>, p: Platform, event: Event)
  {
    exists i :: 0 <= i < |found| && found[i].event == event && p in Guarded(platforms, found[i].path)
  }

  // What a run executes on a platform is reported for that platform.
  lemma ScanSound(node: Node, platforms: set<Platform>, p: Platform, event: Event)
    requires p in platforms && MayRun(node, p, event) && !HasInheritedGuards(node)
    ensures Reports(Sites(node), platforms, p, event)
  {
    SitesAdequate(node, p, event);
    var found := Sites(node);
    var i :| 0 <= i < |found| && found[i].event == event && MayFollow(found[i].path, p);
    GuardedExactly(platforms, found[i].path, p);
  }

  // if (globalThis.toString) load('x'), or any other inherited name, loads x on
  // every platform and is reported for none.
  lemma ScanMissesInheritedGuard(name: string, event: Event, p: Platform)
    requires name in INHERITED
    ensures var test := Member(Identifier("globalThis"), Named(name), false);
      var program := Branch(test, Site(event), Other([]));
      MayRun(program, p, event) && !Reports(Sites(program), PLATFORMS, p, event)
  {
    var test := Member(Identifier("globalThis"), Named(name), false);
    var program := Branch(test, Site(event), Other([]));
    InheritedIsTrue(test, p);
    assert Sites(test) == [] && Sites(Site(event)) == [Found(event, [])] && Sites(Other([])) == [];
    assert |Sites(program)| == 1 && Sites(program)[0].path == [Guarding(test, true)];
    NotBooleanExactly(test);
  }

  lemma InheritedIsTrue(test: Node, p: Platform)
    requires test.Member? && test.property.Named? && test.base == Identifier("globalThis")
    requires test.property.name in INHERITED
    ensures MayBe(test, p, true)
  {
    assert MayEval(test.base, p, Normal(Object(true)));
    assert MayEval(test, p, Normal(Object(true)));
  }

  // ---- Exactness ----

  // Tests built only from comparisons of an os reference with a platform name.
  predicate PlatformTest(e: Node)
  {
    match e
    case Binary(op, left, right) =>
      op != OtherBinary && ((IsOsRef(left) && IsPlatform(right)) || (IsOsRef(right) && IsPlatform(left)))
    case Logical(op, left, right) => op != Nullish && PlatformTest(left) && PlatformTest(right)
    case Not(argument) => PlatformTest(argument)
    case Paren(expression) => PlatformTest(expression)
    case _ => false
  }

  lemma {:induction false} PlatformTestConstrains(e: Node)
    requires PlatformTest(e)
    ensures WhenTrue(e).Some? && WhenFalse(e).Some?
    ensures WhenTrue(e).value !! WhenFalse(e).value
    ensures WhenTrue(e).value + WhenFalse(e).value == PLATFORMS
  {
    match e
    case Binary(_, _, _) =>
      EveryPlatform(WhenTrue(e).value);
    case Logical(_, left, right) =>
      PlatformTestConstrains(left);
      PlatformTestConstrains(right);
    case Not(argument) => PlatformTestConstrains(argument);
    case Paren(expression) => PlatformTestConstrains(expression);
    case _ =>
  }

  // On such tests both analyses are exact: they split the platforms, and every
  // evaluation that completes is true exactly on the platforms of WhenTrue.
  lemma PlatformTestExact(e: Node, p: Platform, v: Value)
    requires PlatformTest(e) && MayEval(e, p, Normal(v))
    ensures WhenTrue(e).Some? && WhenFalse(e).Some?
    ensures Truthy(v) <==> p in WhenTrue(e).value
    ensures !Truthy(v) <==> p in WhenFalse(e).value
  {
    PlatformTestConstrains(e);
    ConstraintsSound(e, p, v);
  }

  // An operand that the analysis does not look into and that can come out either
  // way on every platform.
  ghost predicate IsFree(e: Node)
  {
    && !e.Not? && !e.Paren? && !(e.Logical? && e.operator != Nullish) && !PlatformTest(e)
    && forall p :: MayBe(e, p, true) && MayBe(e, p, false)
  }

  // Some evaluation completes on the platform.
  ghost predicate Completes(e: Node, p: Platform)
  {
    MayBe(e, p, true) || MayBe(e, p, false)
  }

  ghost predicate CanComplete(e: Node)
  {
    forall p :: Completes(e, p)
  }

  // Tests built from platform comparisons and free operands.
  ghost predicate MixedTest(e: Node)
  {
    match e
    case Binary(_, _, _) => (PlatformTest(e) && CanComplete(e)) || IsFree(e)
    case Logical(op, left, right) => (op != Nullish && MixedTest(left) && MixedTest(right)) || IsFree(e)
    case Not(argument) => MixedTest(argument)
    case Paren(expression) => MixedTest(expression)
    case _ => IsFree(e)
  }

  predicate Admitted(a: Constraint, p: Platform)
  {
    a.None? || p in a.value
  }

  lemma NotMayBe(e: Node, p: Platform, truth: bool)
    requires e.Not?
    ensures MayBe(e, p, truth) <==> MayBe(e.argument, p, !truth)
  {
    if MayBe(e.argument, p, !truth) {
      var v :| MayEval(e.argument, p, Normal(v)) && Truthy(v) == !truth;
      assert MayEval(e, p, Normal(Boolean(truth)));
    }
  }

  // A conjunction is true when both operands are, and false when the first one is
  // or the second after it; a disjunction the other way round.
  lemma LogicalMayBe(e: Node, p: Platform)
    requires e.Logical? && e.operator != Nullish
    ensures var both := e.operator == And;
      && (MayBe(e, p, both) <==> MayBe(e.left, p, both) && MayBe(e.right, p, both))
      && (MayBe(e, p, !both) <==>
            MayBe(e.left, p, !both) || (MayBe(e.left, p, both) && MayBe(e.right, p, !both)))
  {
    var both := e.operator == And;
    forall truth | MayBe(e.left, p, both) && MayBe(e.right, p, truth) ensures MayBe(e, p, truth) {
      var a :| MayEval(e.left, p, Normal(a)) && Truthy(a) == both;
      var v :| MayEval(e.right, p, Normal(v)) && Truthy(v) == truth;
      assert MayEval(e, p, Normal(v));
    }
    if MayBe(e.left, p, !both) {
      var a :| MayEval(e.left, p, Normal(a)) && Truthy(a) == !both;
      assert MayEval(e, p, Normal(a));
    }
  }

  lemma {:induction false} MixedCompletes(e: Node)
    requires MixedTest(e)
    ensures CanComplete(e)
  {
    hide MayEval, MayBe, PlatformTest;
    forall p ensures Completes(e, p) {
      if IsFree(e) {
      } else {
        match e
        case Binary(_, _, _) =>
        case Logical(_, left, right) =>
          MixedCompletes(left);
          MixedCompletes(right);
          assert Completes(left, p) && Completes(right, p);
          LogicalMayBe(e, p);
        case Not(argument) =>
          MixedCompletes(argument);
          assert Completes(argument, p);
          NotMayBe(e, p, true);
          NotMayBe(e, p, false);
        case Paren(expression) =>
          MixedCompletes(expression);
          assert Completes(expression, p);
          ParenMayBe(e, p);
        case _ =>
      }
    }
  }

  lemma FreeMayBe(e: Node, p: Platform)
    requires IsFree(e)
    ensures MayBe(e, p, true) && MayBe(e, p, false) && WhenTrue(e) == None && WhenFalse(e) == None
  {
    hide MayBe;
  }

  lemma ParenMayBe(e: Node, p: Platform)
    requires e.Paren?
    ensures forall truth :: MayBe(e, p, truth) <==> MayBe(e.expression, p, truth)
  {
  }

  // A comparison comes out only as the platform says.
  lemma ComparisonMayBe(e: Node, p: Platform)
    requires e.Binary? && PlatformTest(e) && CanComplete(e)
    ensures MayBe(e, p, true) <==> Admitted(WhenTrue(e), p)
    ensures MayBe(e, p, false) <==> Admitted(WhenFalse(e), p)
  {
    hide MayEval, WhenTrue, WhenFalse, PlatformTest;
    assert Completes(e, p);
    var v :| MayEval(e, p, Normal(v));
    PlatformTestExact(e, p, v);
    forall w | MayEval(e, p, Normal(w)) ensures Truthy(w) == Truthy(v) {
      PlatformTestExact(e, p, w);
    }
  }

  // On tests built from platform comparisons and free operands nothing is lost:
  // a test can come out true, or false, on exactly the platforms it is said to.
  lemma {:induction false} MixedExactly(e: Node, p: Platform)
    requires MixedTest(e)
    ensures MayBe(e, p, true) <==> Admitted(WhenTrue(e), p)
    ensures MayBe(e, p, false) <==> Admitted(WhenFalse(e), p)
  {
    hide MayEval, MayBe, IsFree, PlatformTest;
    if IsFree(e) {
      FreeMayBe(e, p);
    } else {
      match e
      case Binary(_, _, _) => ComparisonMayBe(e, p);
      case Logical(_, left, right) =>
        MixedExactly(left, p);
        MixedExactly(right, p);
        MixedCompletes(left);
        assert Completes(left, p);
        LogicalMayBe(e, p);
      case Not(argument) =>
        MixedExactly(argument, p);
        NotMayBe(e, p, true);
        NotMayBe(e, p, false);
      case Paren(expression) =>
        MixedExactly(expression, p);
        ParenMayBe(e, p);
      case _ =>
    }
  }

  // Where no test of the path is known on lo and all of them are such tests, the
  // platforms left are exactly those on which a run may follow the path.
  lemma {:induction false} NarrowingExactly(platforms: set<Platform>, path: seq<Step>, p: Platform)
    requires forall i :: 0 <= i < |path| ==>
      path[i].NoGuard? || (path[i].Guarding? && MixedTest(path[i].test) && OnLo(path[i].test) == Unknown)
    ensures p in Guarded(platforms, path) <==> p in platforms && MayFollow(path, p)
  {
    hide MayBe, MixedTest, OnLo, WhenTrue, WhenFalse;
    if path != [] {
      var step, rest := path[0], path[1..];
      assert path == [step] + rest;
      MayFollowBelow(step, rest, p);
      if step.Guarding? {
        MixedExactly(step.test, p);
        NarrowingExactly(Narrow(platforms, step), rest, p);
      } else {
        NarrowingExactly(platforms, rest, p);
      }
    }
  }

  // A comparison of os, by itself or as a property of a name, with a platform
  // name on either side.
  predicate Comparison(e: Node, name: string)
  {
    && e.Binary? && !e.comparison.OtherBinary?
    && ((NamesOs(e.left) && e.right == StringLiteral(name)) || (NamesOs(e.right) && e.left == StringLiteral(name)))
  }

  predicate NamesOs(e: Node)
  {
    || e == Identifier("os")
    || (e.Member? && e.base.Identifier? && e.property == Named("os"))
  }

  // Every comparison completes on every platform and tells the platform it names
  // from the other two.
  lemma ComparisonsExactly(e: Node, name: string, named: Platform)
    requires Comparison(e, name) && (name, named) in {("linux", Linux), ("mac", Mac), ("win", Win)}
    ensures PlatformTest(e) && CanComplete(e)
    ensures WhenTrue(e) == Some(
              if e.comparison.StrictEqual? || e.comparison.LooseEqual? then {named} else {Linux, Mac, Win} - {named})
  {
    forall p ensures Completes(e, p) {
      var os := if NamesOs(e.left) && e.right == StringLiteral(name) then e.left else e.right;
      OsCompletes(os, p);
      Compares(e, os, name, p);
    }
    hide MayEval, Completes;
    assert name == PlatformName(named);
    assert PlatformsNamed(name) == {named};
  }

  lemma OsCompletes(e: Node, p: Platform)
    requires NamesOs(e)
    ensures MayEval(e, p, Normal(Text(PlatformName(p))))
  {
    if e.Member? {
      var holder := if e.base.name == "os" then Text(PlatformName(p)) else Object(true);
      assert MayEval(e.base, p, Normal(holder));
    }
  }

  lemma Compares(e: Node, os: Node, name: string, p: Platform)
    requires e.Binary? && e.comparison != OtherBinary && MayEval(os, p, Normal(Text(PlatformName(p))))
    requires (e.left == os && e.right == StringLiteral(name)) || (e.right == os && e.left == StringLiteral(name))
    ensures Completes(e, p)
  {
    var same := (PlatformName(p) == name) == (e.comparison == StrictEqual || e.comparison == LooseEqual);
    assert MayEval(StringLiteral(name), p, Normal(Text(name)));
    if e.left == os && e.right == StringLiteral(name) {
      assert MayCompare(e.comparison, Text(PlatformName(p)), Text(name), Normal(Boolean(same)));
    } else {
      assert MayCompare(e.comparison, Text(name), Text(PlatformName(p)), Normal(Boolean(same)));
    }
    assert MayEval(e, p, Normal(Boolean(same)));
  }

  // ---- Runtimes ----

  // Tests built from globalThis.lo, globalThis.Deno, globalThis.Bun and free operands.
  ghost predicate RuntimeTest(e: Node)
  {
    match e
    case Member(base, property, _) =>
      || (base == Identifier("globalThis") && property in {Named("lo"), Named("Deno"), Named("Bun")})
      || IsFree(e)
    case Logical(op, left, right) => (op != Nullish && RuntimeTest(left) && RuntimeTest(right)) || IsFree(e)
    case Not(argument) => RuntimeTest(argument)
    case Paren(expression) => RuntimeTest(expression)
    case _ => IsFree(e)
  }

  // The truth of such a test is known exactly when it can come out one way only.
  lemma {:induction false} RuntimeExactly(e: Node, p: Platform)
    requires RuntimeTest(e)
    ensures MayBe(e, p, true) <==> OnLo(e) != Surely(false)
    ensures MayBe(e, p, false) <==> OnLo(e) != Surely(true)
    ensures OnLo(e) != NotBoolean
  {
    hide MayEval, MayBe, IsFree, PlatformTest, ChainOnLo;
    if IsFree(e) {
      FreeUnknown(e, p);
    } else {
      match e
      case Member(_, property, optional) => GlobalExactly(property.name, optional, p);
      case Logical(_, left, right) =>
        RuntimeExactly(left, p);
        RuntimeExactly(right, p);
        LogicalMayBe(e, p);
      case Not(argument) =>
        RuntimeExactly(argument, p);
        NotMayBe(e, p, true);
        NotMayBe(e, p, false);
      case Paren(expression) =>
        RuntimeExactly(expression, p);
        ParenMayBe(e, p);
      case _ =>
    }
  }

  lemma FreeUnknown(e: Node, p: Platform)
    requires IsFree(e)
    ensures MayBe(e, p, true) && MayBe(e, p, false) && OnLo(e) == Unknown
  {
    hide MayEval, PlatformTest, OnLo;
    FreeMayBe(e, p);
    var yes :| MayEval(e, p, Normal(yes)) && Truthy(yes);
    var no :| MayEval(e, p, Normal(no)) && !Truthy(no);
    OnLoSound(e, p, yes);
    OnLoSound(e, p, no);
  }

  lemma GlobalExactly(name: string, optional: bool, p: Platform)
    requires name in {"lo", "Deno", "Bun"}
    ensures var e := Member(Identifier("globalThis"), Named(name), optional);
      OnLo(e) == Surely(name == "lo") && MayBe(e, p, name == "lo") && !MayBe(e, p, name != "lo")
  {
    var e := Member(Identifier("globalThis"), Named(name), optional);
    assert OnLo(e) == Surely(name == "lo");
    var v := if name == "lo" then Object(true) else Undefined;
    assert MayEval(e.base, p, Normal(Object(true)));
    assert MayEval(e, p, Normal(v)) && Truthy(v) == (name == "lo");
    forall w | MayEval(e, p, Normal(w)) ensures Truthy(w) == (name == "lo") {
      OnLoSound(e, p, w);
    }
  }

  // What is under globalThis.Deno or globalThis.Bun, or under a property of
  // them, is reported for no platform, and what is under the alternative for
  // all; globalThis.lo the other way round.
  lemma RuntimeBranches(name: string, optional: bool, inner: bool, field: string, yes: Event, no: Event, p: Platform)
    requires name in {"lo", "Deno", "Bun"} && yes != no
    requires name == "lo" ==> !inner
    ensures var global := Member(Identifier("globalThis"), Named(name), optional);
      var test := if inner then Member(global, Named(field), false) else global;
      var found := Sites(Branch(test, Site(yes), Site(no)));
      && (Reports(found, PLATFORMS, p, yes) <==> name == "lo")
      && (Reports(found, PLATFORMS, p, no) <==> name != "lo")
  {
    var global := Member(Identifier("globalThis"), Named(name), optional);
    var test := if inner then Member(global, Named(field), false) else global;
    RuntimeKnown(name, optional, field);
    OneStep(test, true);
    OneStep(test, false);
    BranchSites(test, yes, no);
    hide *;
    EveryPlatform({p});
    var found := Sites(Branch(test, Site(yes), Site(no)));
    ReportsOne(found, 0, p);
    ReportsOne(found, 1, p);
  }

  // Negating an inherited global gives a test that is known to fail.
  lemma NegatedInherited(name: string, yes: Event, no: Event, p: Platform)
    requires name in INHERITED && yes != no
    ensures var test := Not(Member(Identifier("globalThis"), Named(name), false));
      var found := Sites(Branch(test, Site(yes), Site(no)));
      !Reports(found, PLATFORMS, p, yes) && Reports(found, PLATFORMS, p, no)
  {
    var global := Member(Identifier("globalThis"), Named(name), false);
    var test := Not(global);
    NotBooleanExactly(global);
    assert Sites(Identifier("globalThis")) == [] && Sites(global) == [] && Sites(test) == [];
    Unconstrained(global);
    assert OnLo(test) == Surely(false) && WhenTrue(test) == None && WhenFalse(test) == None;
    OneStep(test, true);
    OneStep(test, false);
    BranchSites(test, yes, no);
    hide *;
    EveryPlatform({p});
    var found := Sites(Branch(test, Site(yes), Site(no)));
    ReportsOne(found, 0, p);
    ReportsOne(found, 1, p);
  }

  lemma ReportsOne(found: seq<Found>, i: nat, p: Platform)
    requires |found| == 2 && found[0].event != found[1].event && i < 2
    ensures Reports(found, PLATFORMS, p, found[i].event) <==> p in Guarded(PLATFORMS, found[i].path)
  {
    hide Guarded;
  }

  lemma RuntimeKnown(name: string, optional: bool, field: string)
    requires name in {"lo", "Deno", "Bun"}
    ensures var global := Member(Identifier("globalThis"), Named(name), optional);
      var within := Member(global, Named(field), false);
      && OnLo(global) == Surely(name == "lo") && (name != "lo" ==> OnLo(within) == Surely(false))
      && Sites(global) == [] && Sites(within) == []
      && WhenTrue(global) == WhenFalse(global) == WhenTrue(within) == WhenFalse(within) == None
  {
    hide WhenTrue, WhenFalse, Guarded;
    var global := Member(Identifier("globalThis"), Named(name), optional);
    var within := Member(global, Named(field), false);
    assert MemberRoot(within) == MemberRoot(global) == global;
    Unconstrained(global);
    Unconstrained(within);
    assert Sites(Identifier("globalThis")) == [];
  }

  lemma Unconstrained(e: Node)
    requires e.Member?
    ensures WhenTrue(e) == WhenFalse(e) == None
  {
  }

  lemma BranchSites(test: Node, yes: Event, no: Event)
    requires Sites(test) == []
    ensures var found := Sites(Branch(test, Site(yes), Site(no)));
      && |found| == 2
      && found[0] == Found(yes, [Guarding(test, true)]) && found[1] == Found(no, [Guarding(test, false)])
  {
    assert Sites(Site(yes)) == [Found(yes, [])] && Sites(Site(no)) == [Found(no, [])];
  }

  lemma OneStep(test: Node, branch: bool)
    requires OnLo(test).Surely? && WhenTrue(test) == None && WhenFalse(test) == None
    ensures Guarded(PLATFORMS, [Guarding(test, branch)]) == if OnLo(test).truth == branch then PLATFORMS else {}
  {
    assert Guarded(PLATFORMS, []) == PLATFORMS;
    assert [Guarding(test, branch)][1..] == [];
  }
}
