/** Rule conditions: combinators over leaves, and references to named checks. */
module Matchers {
  import opened Basics
  import opened ExprSyntax
  import opened ExprLexer

  /** `Reading` stands for the leaves that read the event and the forge. */
  datatype Leaf =
    | WorkflowRunAttempt
    | FeatureFlag(flag: string, fallback: bool, context: map<string, string>)
    | Reading(kind: string, arguments: seq<string>)

  datatype Matcher =
    | All(ms: seq<Matcher>)
    | Any(ms: seq<Matcher>)
    | Not(inner: Matcher)
    | LeafExpr(leaf: Leaf, expr: string)
    | Leaf(leaf: Leaf)
    | Ref(name: string)

  /** What one evaluation sees when neither the event, the forge, the flags nor the clock moves. */
  datatype World = World(
    runAttempt: Option<int>,
    reading: Leaf -> bool,
    flag: (Leaf, string) -> bool,
    unicode: char -> bool)

  predicate Verdict(w: World, leaf: Leaf, rule: string) {
    match leaf
    case WorkflowRunAttempt => w.runAttempt.Some?
    case FeatureFlag(_, _, _) => w.flag(leaf, rule)
    case Reading(_, _) => w.reading(leaf)
  }

  function LeafValue(w: World, leaf: Leaf, rule: string): Value {
    if leaf.WorkflowRunAttempt? then I64(if w.runAttempt.Some? then w.runAttempt.value else 0)
    else Bool(Verdict(w, leaf, rule))
  }

  /** An expression leaf holds when its text parses and evaluates to true. */
  predicate ExprVerdict(w: World, leaf: Leaf, expr: string, rule: string) {
    match ParseText(expr, w.unicode)
    case Err(_) => false
    case Ok(e) => Eval(e, map["value" := LeafValue(w, leaf, rule)]) == Ok(Bool(true))
  }

  /** What a condition says, when `names` says what each named check says. */
  predicate Meaning(m: Matcher, w: World, rule: string, names: string -> bool) {
    match m
    case All(ms) => forall i | 0 <= i < |ms| :: Meaning(ms[i], w, rule, names)
    case Any(ms) => exists i | 0 <= i < |ms| :: Meaning(ms[i], w, rule, names)
    case Not(x) => !Meaning(x, w, rule, names)
    case LeafExpr(leaf, expr) => ExprVerdict(w, leaf, expr, rule)
    case Leaf(leaf) => Verdict(w, leaf, rule)
    case Ref(name) => names(name)
  }

  function Refs(m: Matcher): set<string> {
    match m
    case All(ms) => RefsIn(ms)
    case Any(ms) => RefsIn(ms)
    case Not(x) => Refs(x)
    case Ref(name) => {name}
    case _ => {}
  }

  function RefsIn(ms: seq<Matcher>): set<string> {
    if ms == [] then {} else Refs(ms[0]) + RefsIn(ms[1..])
  }

  predicate RefFree(m: Matcher) {
    match m
    case All(ms) => forall i | 0 <= i < |ms| :: RefFree(ms[i])
    case Any(ms) => forall i | 0 <= i < |ms| :: RefFree(ms[i])
    case Not(x) => RefFree(x)
    case Ref(_) => false
    case _ => true
  }
}
