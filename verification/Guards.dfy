// The guard analysis of lib/parse.js: which platforms can reach a node of a
// program, judged from the branches that enclose it.
//
// The first half is the syntax of programs and what a run of a program may do.
// The second half is the analysis. The theorems at the end connect the two.
module Guards {
  import opened Prelude

  datatype Platform = Linux | Mac | Win

  const PLATFORMS: set<Platform> := {Linux, Mac, Win}

  function PlatformName(p: Platform): (name: string)
  {
    match p
    case Linux => "linux"
    case Mac => "mac"
    case Win => "win"
  }

  // ---- Syntax ----

  datatype BinaryOperator = StrictEqual | LooseEqual | StrictUnequal | LooseUnequal | OtherBinary

  datatype LogicalOperator = And | Or | Nullish

  datatype Property = Named(name: string) | Computed(index: Node)

  // What the scanner collects: a binding loaded, or a module imported, by a literal name.
  datatype Event = Load(name: string) | Import(specifier: string)

  // A program. Branch stands for both the if statement and the conditional
  // expression; a missing alternate is Other([]). Other stands for every node
  // the guard analysis does not look into, such as blocks, calls and functions.
  datatype Node =
    | Identifier(name: string)
    | StringLiteral(text: string)
    | Member(base: Node, property: Property, optional: bool)
    | Chain(expression: Node)
    | Binary(comparison: BinaryOperator, left: Node, right: Node)
    | Logical(operator: LogicalOperator, left: Node, right: Node)
    | Not(argument: Node)
    | Paren(expression: Node)
    | Branch(test: Node, consequent: Node, alternate: Node)
    | Site(event: Event)
    | Other(children: seq<Node>)

  // ---- Runs ----

  // The value of an expression. Cut is the value of a member chain that an
  // optional access has ended; the enclosing Chain, which the grammar puts
  // around every optional access, turns it into Undefined.
  datatype Value = Undefined | Cut | Null | Boolean(b: bool) | Text(s: string) | Object(truthy: bool)

  datatype Completion = Normal(value: Value) | Throw

  predicate Truthy(v: Value)
  {
    match v
    case Undefined => false
    case Cut => false
    case Null => false
    case Boolean(b) => b
    case Text(s) => s != ""
    case Object(truthy) => truthy
  }

  predicate IsNullish(v: Value)
  {
    v.Undefined? || v.Cut? || v.Null?
  }

  // The names every object inherits from Object.prototype.
  const INHERITED: set<string> := {
    "constructor", "hasOwnProperty", "isPrototypeOf", "propertyIsEnumerable", "toLocaleString",
    "toString", "valueOf", "__proto__", "__defineGetter__", "__defineSetter__",
    "__lookupGetter__", "__lookupSetter__"
  }

  // What reading a property of the global object yields on lo: globalThis.lo is
  // an object, globalThis.Deno and globalThis.Bun are absent, and the inherited
  // members are functions or objects. Any other global is unconstrained.
  predicate MayReadGlobal(name: string, c: Completion)
  {
    if name == "lo" || name in INHERITED then c.Normal? && Truthy(c.value)
    else if name == "Deno" || name == "Bun" then c == Normal(Undefined)
    else true
  }

  // Reading a property once its object has evaluated. A property called
  // os always holds the name of the platform the program runs on.
  ghost predicate MayRead(base: Node, name: string, p: Platform, c: Completion)
  {
    if base == Identifier("globalThis") && name != "os" then MayReadGlobal(name, c)
    else if name == "os" then c == Normal(Text(PlatformName(p)))
    else true
  }

  predicate MayCompare(op: BinaryOperator, a: Value, b: Value, c: Completion)
  {
    if a.Text? && b.Text? then
      match op
      case StrictEqual => c == Normal(Boolean(a.s == b.s))
      case LooseEqual => c == Normal(Boolean(a.s == b.s))
      case StrictUnequal => c == Normal(Boolean(a.s != b.s))
      case LooseUnequal => c == Normal(Boolean(a.s != b.s))
      case OtherBinary => true
    else
      true
  }

  // Whether the logical operator goes on to its right operand.
  predicate TakesRight(op: LogicalOperator, left: Value)
  {
    match op
    case And => Truthy(left)
    case Or => !Truthy(left)
    case Nullish => IsNullish(left)
  }

  // Expression e may complete with c on platform p. Everything the analysis
  // does not understand may complete in any way, at each evaluation afresh.
  ghost predicate MayEval(e: Node, p: Platform, c: Completion)
  {
    match e
    case Identifier(name) =>
      if name == "os" then c == Normal(Text(PlatformName(p)))
      else if name == "globalThis" then c == Normal(Object(true))
      else true
    case StringLiteral(text) => c == Normal(Text(text))
    case Member(base, property, optional) =>
      exists o :: MayEval(base, p, o) &&
        if o.Throw? then c.Throw?
        else if o.value.Cut? then c == Normal(Cut)
        else if IsNullish(o.value) then c == (if optional then Normal(Cut) else Throw)
        else property.Computed? || MayRead(base, property.name, p, c)
    case Chain(expression) =>
      exists o :: MayEval(expression, p, o) && c == if o == Normal(Cut) then Normal(Undefined) else o
    case Binary(op, left, right) =>
      exists a, b :: MayEval(left, p, a) && MayEval(right, p, b) &&
        if a.Throw? || b.Throw? then c.Throw?
        else !a.value.Cut? && !b.value.Cut? && MayCompare(op, a.value, b.value, c)
    case Logical(op, left, right) =>
      exists a :: MayEval(left, p, a) &&
        if a.Normal? && TakesRight(op, a.value) then MayEval(right, p, c) else c == a
    case Not(argument) =>
      exists a :: MayEval(argument, p, a) &&
        c == if a.Throw? then Throw else Normal(Boolean(!Truthy(a.value)))
    case Paren(expression) => MayEval(expression, p, c)
    case Branch(_, _, _) => true
    case Site(_) => true
    case Other(_) => true
  }

  // A run of e on platform p may end the evaluation of e with this truth value.
  ghost predicate MayBe(e: Node, p: Platform, truth: bool)
  {
    exists v :: MayEval(e, p, Normal(v)) && Truthy(v) == truth
  }

  ghost predicate MayGoRight(op: LogicalOperator, left: Node, p: Platform)
  {
    exists v :: MayEval(left, p, Normal(v)) && TakesRight(op, v)
  }

  // A run of node on platform p may execute the event.
  ghost predicate MayRun(node: Node, p: Platform, event: Event)
  {
    match node
    case Identifier(_) => false
    case StringLiteral(_) => false
    case Member(base, property, _) =>
      MayRun(base, p, event) || (property.Computed? && MayRun(property.index, p, event))
    case Chain(expression) => MayRun(expression, p, event)
    case Binary(_, left, right) => MayRun(left, p, event) || MayRun(right, p, event)
    case Logical(op, left, right) =>
      MayRun(left, p, event) || (MayGoRight(op, left, p) && MayRun(right, p, event))
    case Not(argument) => MayRun(argument, p, event)
    case Paren(expression) => MayRun(expression, p, event)
    case Branch(test, consequent, alternate) =>
      || MayRun(test, p, event)
      || (MayBe(test, p, true) && MayRun(consequent, p, event))
      || (MayBe(test, p, false) && MayRun(alternate, p, event))
    case Site(e) => e == event
    case Other(children) => exists child :: child in children && MayRun(child, p, event)
  }

  // ---- Platform guards ----

  predicate IsOsRef(node: Node)
  {
    match node
    case Identifier(name) => name == "os"
    case Member(_, property, _) => property == Named("os")
    case _ => false
  }

  predicate IsPlatform(node: Node)
  {
    node.StringLiteral? && exists p | p in PLATFORMS :: node.text == PlatformName(p)
  }

  function PlatformsNamed(name: string): set<Platform>
  {
    set p | p in PLATFORMS && PlatformName(p) == name
  }

  type Constraint = Option<set<Platform>>

  function Complement(a: Constraint): Constraint
  {
    if a.None? then None else Some(PLATFORMS - a.value)
  }

  function Union(a: Constraint, b: Constraint): Constraint
  {
    if a.None? || b.None? then None else Some(a.value + b.value)
  }

  // Both constraints at once, where None is no constraint.
  function Both(a: Constraint, b: Constraint): Constraint
  {
    if a.Some? && b.Some? then Some(a.value * b.value)
    else if a.Some? then a
    else b
  }

  // The platforms on which expr is true, or None if it does not constrain them.
  function WhenTrue(expr: Node): Constraint
    decreases expr, 0
  {
    match expr
    case Binary(op, left, right) =>
      if (IsOsRef(left) && IsPlatform(right)) || (IsOsRef(right) && IsPlatform(left)) then
        var name := if IsOsRef(left) && IsPlatform(right) then right.text else left.text;
        match op
        case StrictEqual => Some(PlatformsNamed(name))
        case LooseEqual => Some(PlatformsNamed(name))
        case StrictUnequal => Complement(Some(PlatformsNamed(name)))
        case LooseUnequal => Complement(Some(PlatformsNamed(name)))
        case OtherBinary => None
      else None
    case Logical(op, left, right) =>
      (match op
       case Or => Union(WhenTrue(left), WhenTrue(right))
       case And => Both(WhenTrue(left), WhenTrue(right))
       case Nullish => None)
    case Not(argument) => WhenFalse(argument)
    case Paren(expression) => WhenTrue(expression)
    case _ => None
  }

  // The platforms on which expr is false, or None if it does not constrain them.
  function WhenFalse(expr: Node): Constraint
    decreases expr, 1
  {
    match expr
    case Binary(_, _, _) => Complement(WhenTrue(expr))
    case Logical(op, left, right) =>
      (match op
       case And => Union(WhenFalse(left), WhenFalse(right))
       case Or => Both(WhenFalse(left), WhenFalse(right))
       case Nullish => None)
    case Not(argument) => WhenTrue(argument)
    case Paren(expression) => WhenFalse(expression)
    case _ => None
  }

  // ---- Runtime guards ----

  // The answer of the RUNTIME_GLOBALS table. It is a plain object, so a name
  // that objects inherit is answered too, with a value that is no boolean.
  datatype Known = Unknown | Surely(truth: bool) | NotBoolean

  function RuntimeGlobal(name: string): Known
  {
    if name == "lo" then Surely(true)
    else if name == "Deno" || name == "Bun" then Surely(false)
    else if name in INHERITED then NotBoolean
    else Unknown
  }

  function MemberRoot(node: Node): Node
  {
    if node.Member? && node.base.Member? then MemberRoot(node.base) else node
  }

  function ChainRoot(node: Node): Node
  {
    MemberRoot(if node.Chain? then node.expression else node)
  }

  // The loop of chain_root.
  method FindChainRoot(node: Node) returns (root: Node)
    ensures root == ChainRoot(node)
    ensures node.Member? || (node.Chain? && node.expression.Member?) ==> root.Member? && !root.base.Member?
  {
    root := if node.Chain? then node.expression else node;
    while root.Member? && root.base.Member?
      invariant MemberRoot(root) == ChainRoot(node)
      invariant node.Member? || (node.Chain? && node.expression.Member?) ==> root.Member?
      decreases root
    {
      root := root.base;
    }
  }

  function ChainOnLo(expr: Node): Known
  {
    var root := ChainRoot(expr);
    if !root.Member? || root.property.Computed? then Unknown
    else if root.base != Identifier("globalThis") then Unknown
    else
      var known := RuntimeGlobal(root.property.name);
      if known == Surely(false) || root == expr || (expr.Chain? && root == expr.expression) then known
      else Unknown
  }

  // Whether the truth of expr is known on lo.
  function OnLo(expr: Node): Known
  {
    match expr
    case Member(_, _, _) => ChainOnLo(expr)
    case Chain(_) => ChainOnLo(expr)
    case Not(argument) =>
      (match OnLo(argument)
       case Unknown => Unknown
       case Surely(truth) => Surely(!truth)
       case NotBoolean => Surely(false))
    case Logical(op, left, right) =>
      var l, r := OnLo(left), OnLo(right);
      (match op
       case And =>
         if l == Surely(false) || r == Surely(false) then Surely(false)
         else if l == Surely(true) && r == Surely(true) then Surely(true)
         else Unknown
       case Or =>
         if l == Surely(true) || r == Surely(true) then Surely(true)
         else if l == Surely(false) && r == Surely(false) then Surely(false)
         else Unknown
       case Nullish => Unknown)
    case Paren(expression) => OnLo(expression)
    case _ => Unknown
  }

  // ---- Narrowing along a path ----

  // One step from a node to the child on the path. The child of a Guarding step
  // runs only when the test has come out as branch says, the child of a Fallback
  // step only when the test has come out as null or undefined.
  datatype Step = Guarding(test: Node, branch: bool) | Fallback(test: Node) | NoGuard

  // The loop of guarded narrows by each step of the path in turn and gives up
  // with no platform at all when a test is known to go the other way.
  function Guarded(platforms: set<Platform>, path: seq<Step>): set<Platform>
  {
    if path == [] then platforms
    else if !path[0].Guarding? then Guarded(platforms, path[1..])
    else
      var known := OnLo(path[0].test);
      if known != Unknown && known != Surely(path[0].branch) then {}
      else Guarded(Narrow(platforms, path[0]), path[1..])
  }

  function Narrow(platforms: set<Platform>, step: Step): set<Platform>
    requires step.Guarding?
  {
    var admitted := if step.branch then WhenTrue(step.test) else WhenFalse(step.test);
    if admitted.Some? then platforms * admitted.value else platforms
  }

  method NarrowAlong(platforms: set<Platform>, path: seq<Step>) returns (narrowed: set<Platform>)
    ensures narrowed == Guarded(platforms, path)
  {
    narrowed := platforms;
    for i := 0 to |path|
      invariant Guarded(narrowed, path[i..]) == Guarded(platforms, path)
    {
      assert path[i..][1..] == path[i + 1..];
      match path[i]
      case NoGuard =>
      case Fallback(_) =>
      case Guarding(test, branch) =>
        var known := OnLo(test);
        if known != Unknown && known != Surely(branch) {
          return {};
        }
        narrowed := Narrow(narrowed, path[i]);
    }
  }

  // Every event of a program with the guards on the way to it from the root.
  datatype Found = Found(event: Event, path: seq<Step>)

  function Below(step: Step, found: seq<Found>): (r: seq<Found>)
    ensures |r| == |found|
    ensures forall i :: 0 <= i < |r| ==> r[i] == Found(found[i].event, [step] + found[i].path)
  {
    seq(|found|, i requires 0 <= i < |found| => Found(found[i].event, [step] + found[i].path))
  }

  function RightStep(op: LogicalOperator, left: Node): Step
  {
    match op
    case And => Guarding(left, true)
    case Or => Guarding(left, false)
    case Nullish => Fallback(left)
  }

  function Sites(node: Node): seq<Found>
  {
    match node
    case Identifier(_) => []
    case StringLiteral(_) => []
    case Member(base, property, _) =>
      if property.Computed? then Below(NoGuard, Sites(base)) + Below(NoGuard, Sites(property.index))
      else Below(NoGuard, Sites(base))
    case Chain(expression) => Below(NoGuard, Sites(expression))
    case Binary(_, left, right) => Below(NoGuard, Sites(left)) + Below(NoGuard, Sites(right))
    case Logical(op, left, right) =>
      Below(NoGuard, Sites(left)) + Below(RightStep(op, left), Sites(right))
    case Not(argument) => Below(NoGuard, Sites(argument))
    case Paren(expression) => Below(NoGuard, Sites(expression))
    case Branch(test, consequent, alternate) =>
      Below(NoGuard, Sites(test)) + Below(Guarding(test, true), Sites(consequent)) +
      Below(Guarding(test, false), Sites(alternate))
    case Site(event) => [Found(event, [])]
    case Other(children) => SitesOfAll(children)
  }

  function SitesOfAll(nodes: seq<Node>): seq<Found>
  {
    if nodes == [] then [] else Below(NoGuard, Sites(nodes[0])) + SitesOfAll(nodes[1..])
  }
}
