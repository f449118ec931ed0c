/** Replacing every reference to a named check by the check itself. */
module CheckExpansion {
  import opened Basics
  import opened Matchers

  /** The checks a rule may name: its own, and the file's under the prefix `global.`. */
  datatype Checks = Checks(locals: map<string, Matcher>, globals: map<string, Matcher>)

  const GLOBAL := "global."

  datatype ExpandError = Cycle(name: string) | UnknownCheck(name: string)

  function Lookup(env: Checks, name: string): Option<Matcher> {
    if GLOBAL <= name then Get(env.globals, name[|GLOBAL|..]) else Get(env.locals, name)
  }

  /** The names a reference can still follow; each step into a check uses one up. */
  function Unvisited(env: Checks, visiting: set<string>): set<string> {
    (env.locals.Keys + set k | k in env.globals.Keys :: GLOBAL + k) - visiting
  }

  lemma FollowingUsesUpAName(env: Checks, visiting: set<string>, name: string)
    requires name !in visiting && Lookup(env, name).Some?
    ensures |Unvisited(env, visiting + {name})| < |Unvisited(env, visiting)|
  {
    if GLOBAL <= name {
      assert name == GLOBAL + name[|GLOBAL|..];
    }
    assert name in Unvisited(env, visiting);
    assert Unvisited(env, visiting + {name}) == Unvisited(env, visiting) - {name};
  }

  function Expand(m: Matcher, env: Checks, visiting: set<string>): Result<Matcher, ExpandError>
    decreases |Unvisited(env, visiting)|, m
  {
    match m
    case Ref(name) =>
      if name in visiting then Err(Cycle(name))
      else if Lookup(env, name).None? then Err(UnknownCheck(name))
      else
        FollowingUsesUpAName(env, visiting, name);
        Expand(Lookup(env, name).value, env, visiting + {name})
    case All(ms) =>
      (match ExpandList(ms, env, visiting)
       case Err(e) => Err(e)
       case Ok(rs) => Ok(All(rs)))
    case Any(ms) =>
      (match ExpandList(ms, env, visiting)
       case Err(e) => Err(e)
       case Ok(rs) => Ok(Any(rs)))
    case Not(x) =>
      (match Expand(x, env, visiting)
       case Err(e) => Err(e)
       case Ok(r) => Ok(Matcher.Not(r)))
    case _ => Ok(m)
  }

  function ExpandList(ms: seq<Matcher>, env: Checks, visiting: set<string>): Result<seq<Matcher>, ExpandError>
    decreases |Unvisited(env, visiting)|, ms
  {
    if ms == [] then Ok([])
    else
      match Expand(ms[0], env, visiting)
      case Err(e) => Err(e)
      case Ok(r) =>
        match ExpandList(ms[1..], env, visiting)
        case Err(e) => Err(e)
        case Ok(rs) => Ok([r] + rs)
  }

  /** A list expands exactly when each of its members does, and then member by member. */
  lemma {:induction false} ListIsPointwise(ms: seq<Matcher>, env: Checks, visiting: set<string>)
    ensures ExpandList(ms, env, visiting).Ok? <==> forall i | 0 <= i < |ms| :: Expand(ms[i], env, visiting).Ok?
    ensures ExpandList(ms, env, visiting).Ok? ==> Pointwise(ms, ExpandList(ms, env, visiting).value, env, visiting)
  {
    if ms != [] {
      ListIsPointwise(ms[1..], env, visiting);
      assert forall i | 0 < i < |ms| :: ms[i] == ms[1..][i - 1];
      if forall i | 0 <= i < |ms| :: Expand(ms[i], env, visiting).Ok? {
        assert forall i | 0 <= i < |ms[1..]| :: ms[1..][i] == ms[i + 1];
      }
    }
  }

  ghost predicate Pointwise(ms: seq<Matcher>, rs: seq<Matcher>, env: Checks, visiting: set<string>) {
    |rs| == |ms| && forall i | 0 <= i < |ms| :: Expand(ms[i], env, visiting) == Ok(rs[i])
  }

  lemma {:induction false} RefOfAMember(ms: seq<Matcher>, name: string)
    ensures name in RefsIn(ms) <==> exists i :: 0 <= i < |ms| && name in Refs(ms[i])
  {
    if ms != [] {
      RefOfAMember(ms[1..], name);
      assert forall i | 0 < i < |ms| :: ms[i] == ms[1..][i - 1];
      if name in RefsIn(ms[1..]) {
        var i :| 0 <= i < |ms[1..]| && name in Refs(ms[1..][i]);
        assert name in Refs(ms[i + 1]);
      }
    }
  }

  /** The conditions directly inside a combinator. */
  function Children(m: Matcher): seq<Matcher> {
    match m
    case All(ms) => ms
    case Any(ms) => ms
    case Not(x) => [x]
    case _ => []
  }

  lemma RefOfAChild(m: Matcher, name: string)
    requires !m.Ref?
    ensures name in Refs(m) <==> exists i :: 0 <= i < |Children(m)| && name in Refs(Children(m)[i])
  {
    match m {
      case All(ms) => RefOfAMember(ms, name); assert Children(m) == ms;
      case Any(ms) => RefOfAMember(ms, name); assert Children(m) == ms;
      case Not(x) => assert Children(m)[0] == x;
      case _ =>
    }
  }

  lemma ChildrenExpand(m: Matcher, env: Checks, visiting: set<string>)
    requires !m.Ref?
    ensures Expand(m, env, visiting).Ok? <==>
      forall i | 0 <= i < |Children(m)| :: Expand(Children(m)[i], env, visiting).Ok?
  {
    match m {
      case All(ms) => ListIsPointwise(ms, env, visiting); assert Children(m) == ms;
      case Any(ms) => ListIsPointwise(ms, env, visiting); assert Children(m) == ms;
      case Not(x) => assert Children(m)[0] == x;
      case _ =>
    }
  }

  // ---- What a name stands for ----

  /** A condition without references is its own expansion. */
  lemma {:induction false} RefFreeIsUnchanged(m: Matcher, env: Checks, visiting: set<string>)
    requires RefFree(m)
    ensures Expand(m, env, visiting) == Ok(m)
  {
    match m {
      case All(ms) => RefFreeListIsUnchanged(ms, env, visiting);
      case Any(ms) => RefFreeListIsUnchanged(ms, env, visiting);
      case Not(x) => RefFreeIsUnchanged(x, env, visiting);
      case _ =>
    }
  }

  lemma {:induction false} RefFreeListIsUnchanged(ms: seq<Matcher>, env: Checks, visiting: set<string>)
    requires forall i | 0 <= i < |ms| :: RefFree(ms[i])
    ensures ExpandList(ms, env, visiting) == Ok(ms)
  {
    if ms != [] {
      RefFreeIsUnchanged(ms[0], env, visiting);
      RefFreeListIsUnchanged(ms[1..], env, visiting);
      assert [ms[0]] + ms[1..] == ms;
    }
  }

  /** Behind the prefix stands the file's check of that name, whatever checks the rule has of its own. */
  lemma GlobalNamesReadTheFile(env: Checks, k: string)
    ensures var r := Expand(Ref("global." + k), env, {});
            if k in env.globals then
              && r == Expand(env.globals[k], env, {"global." + k})
              && (RefFree(env.globals[k]) ==> r == Ok(env.globals[k]))
            else r == Err(UnknownCheck("global." + k))
  {
    var name := "global." + k;
    assert name[|GLOBAL|..] == k;
    if k in env.globals {
      ExpandRef(env, {}, name);
      assert {} + {name} == {name};
      if RefFree(env.globals[k]) {
        RefFreeIsUnchanged(env.globals[k], env, {name});
      }
    }
  }

  /** Any other name is one of the rule's own checks, whatever the file's are called. */
  lemma OtherNamesReadTheRule(env: Checks, name: string)
    requires !("global." <= name)
    ensures var r := Expand(Ref(name), env, {});
            if name in env.locals then
              && r == Expand(env.locals[name], env, {name})
              && (RefFree(env.locals[name]) ==> r == Ok(env.locals[name]))
            else r == Err(UnknownCheck(name))
  {
    if name in env.locals {
      ExpandRef(env, {}, name);
      assert {} + {name} == {name};
      if RefFree(env.locals[name]) {
        RefFreeIsUnchanged(env.locals[name], env, {name});
      }
    }
  }

  // ---- When expansion succeeds ----

  /** A reference path: each name is referenced by the check before it, the first by `m`. */
  predicate IsPath(env: Checks, m: Matcher, p: seq<string>)
    decreases |p|
  {
    p != [] ==>
      && p[0] in Refs(m)
      && (|p| > 1 ==> Lookup(env, p[0]).Some? && IsPath(env, Lookup(env, p[0]).value, p[1..]))
  }

  /** Every name on the path is bound, and none comes twice. */
  ghost predicate CleanPath(env: Checks, visiting: set<string>, p: seq<string>) {
    Distinct(p) && forall i | 0 <= i < |p| :: Lookup(env, p[i]).Some? && p[i] !in visiting
  }

  ghost predicate AllPathsClean(env: Checks, m: Matcher, visiting: set<string>) {
    forall p | IsPath(env, m, p) :: CleanPath(env, visiting, p)
  }

  lemma ExpandRef(env: Checks, visiting: set<string>, name: string)
    requires name !in visiting && Lookup(env, name).Some?
    ensures Expand(Ref(name), env, visiting) == Expand(Lookup(env, name).value, env, visiting + {name})
    ensures |Unvisited(env, visiting + {name})| < |Unvisited(env, visiting)|
  {
    FollowingUsesUpAName(env, visiting, name);
  }

  lemma PathStep(env: Checks, visiting: set<string>, p: seq<string>)
    requires p != [] && Lookup(env, p[0]).Some? && p[0] !in visiting
    ensures CleanPath(env, visiting, p) <==> CleanPath(env, visiting + {p[0]}, p[1..])
  {
    assert forall i | 0 < i < |p| :: p[i] == p[1..][i - 1];
    if CleanPath(env, visiting, p) {
      assert forall i | 0 <= i < |p[1..]| :: p[1..][i] == p[i + 1];
    }
  }

  /** A path from a condition that is no reference starts in one of its children. */
  lemma PathInAChild(env: Checks, m: Matcher, p: seq<string>) returns (i: nat)
    requires !m.Ref? && p != [] && IsPath(env, m, p)
    ensures i < |Children(m)| && IsPath(env, Children(m)[i], p)
  {
    RefOfAChild(m, p[0]);
    i :| 0 <= i < |Children(m)| && p[0] in Refs(Children(m)[i]);
  }

  lemma PathOfAChild(env: Checks, m: Matcher, i: nat, p: seq<string>)
    requires !m.Ref? && i < |Children(m)| && IsPath(env, Children(m)[i], p)
    ensures IsPath(env, m, p)
  {
    if p != [] {
      RefOfAChild(m, p[0]);
    }
  }

  lemma PathThroughRef(env: Checks, name: string, p: seq<string>)
    requires Lookup(env, name).Some? && IsPath(env, Lookup(env, name).value, p)
    ensures IsPath(env, Ref(name), [name] + p)
  {
    assert ([name] + p)[1..] == p;
  }

  lemma {:induction false} ExpandedPathsAreClean(m: Matcher, env: Checks, visiting: set<string>, p: seq<string>)
    requires Expand(m, env, visiting).Ok? && IsPath(env, m, p)
    ensures CleanPath(env, visiting, p)
    decreases |Unvisited(env, visiting)|, m
  {
    if p == [] {
    } else if m.Ref? {
      ExpandRef(env, visiting, m.name);
      ExpandedPathsAreClean(Lookup(env, m.name).value, env, visiting + {m.name}, p[1..]);
      PathStep(env, visiting, p);
    } else {
      var i := PathInAChild(env, m, p);
      ChildrenExpand(m, env, visiting);
      ExpandedPathsAreClean(Children(m)[i], env, visiting, p);
    }
  }

  lemma {:induction false} CleanPathsExpand(m: Matcher, env: Checks, visiting: set<string>)
    requires AllPathsClean(env, m, visiting)
    ensures Expand(m, env, visiting).Ok?
    decreases |Unvisited(env, visiting)|, m
  {
    if m.Ref? {
      CleanPathsThroughRef(m.name, env, visiting);
      ExpandRef(env, visiting, m.name);
      CleanPathsExpand(Lookup(env, m.name).value, env, visiting + {m.name});
    } else {
      forall i | 0 <= i < |Children(m)|
        ensures Expand(Children(m)[i], env, visiting).Ok?
      {
        forall p | IsPath(env, Children(m)[i], p)
          ensures CleanPath(env, visiting, p)
        {
          PathOfAChild(env, m, i, p);
        }
        CleanPathsExpand(Children(m)[i], env, visiting);
      }
      ChildrenExpand(m, env, visiting);
    }
  }

  lemma CleanPathsThroughRef(name: string, env: Checks, visiting: set<string>)
    requires AllPathsClean(env, Ref(name), visiting)
    ensures Lookup(env, name).Some? && name !in visiting
    ensures AllPathsClean(env, Lookup(env, name).value, visiting + {name})
  {
    assert IsPath(env, Ref(name), [name]);
    assert CleanPath(env, visiting, [name]) && [name][0] == name;
    forall p | IsPath(env, Lookup(env, name).value, p)
      ensures CleanPath(env, visiting + {name}, p)
    {
      PathThroughRef(env, name, p);
      PathStep(env, visiting, [name] + p);
      assert ([name] + p)[1..] == p;
    }
  }

  /**
   * Expansion succeeds exactly when every reference that can be reached is bound
   * and no reference path comes back to a name it has followed.
   */
  lemma ExpandsIffPathsClean(m: Matcher, env: Checks, visiting: set<string>)
    ensures Expand(m, env, visiting).Ok? <==> AllPathsClean(env, m, visiting)
  {
    if Expand(m, env, visiting).Ok? {
      forall p | IsPath(env, m, p)
        ensures CleanPath(env, visiting, p)
      {
        ExpandedPathsAreClean(m, env, visiting, p);
      }
    } else if AllPathsClean(env, m, visiting) {
      CleanPathsExpand(m, env, visiting);
    }
  }

  /** A path that shows the error is real: it ends in an unbound name, or in one already on the way. */
  ghost predicate Shows(env: Checks, m: Matcher, visiting: set<string>, e: ExpandError, p: seq<string>) {
    && p != [] && IsPath(env, m, p) && p[|p| - 1] == e.name
    && match e
       case Cycle(name) => name in visiting || name in p[..|p| - 1]
       case UnknownCheck(name) => Lookup(env, name).None?
  }

  lemma {:induction false} FailingMember(ms: seq<Matcher>, env: Checks, visiting: set<string>) returns (i: nat)
    requires ExpandList(ms, env, visiting).Err?
    ensures i < |ms| && Expand(ms[i], env, visiting) == Err(ExpandList(ms, env, visiting).error)
  {
    if Expand(ms[0], env, visiting).Err? {
      i := 0;
    } else {
      var j := FailingMember(ms[1..], env, visiting);
      i := j + 1;
    }
  }

  lemma {:induction false} ErrorsAreReal(m: Matcher, env: Checks, visiting: set<string>) returns (p: seq<string>)
    requires Expand(m, env, visiting).Err?
    ensures Shows(env, m, visiting, Expand(m, env, visiting).error, p)
    decreases |Unvisited(env, visiting)|, m
  {
    ghost var e := Expand(m, env, visiting).error;
    if !m.Ref? {
      var i := FailingChild(m, env, visiting);
      p := ErrorsAreReal(Children(m)[i], env, visiting);
      PathOfAChild(env, m, i, p);
    } else if m.name in visiting || Lookup(env, m.name).None? {
      p := [m.name];
      RefItselfFails(m.name, env, visiting);
    } else {
      ExpandRef(env, visiting, m.name);
      var rest := ErrorsAreReal(Lookup(env, m.name).value, env, visiting + {m.name});
      p := [m.name] + rest;
      ShowsThroughRef(m.name, env, visiting, e, rest);
    }
  }

  lemma RefItselfFails(name: string, env: Checks, visiting: set<string>)
    requires name in visiting || Lookup(env, name).None?
    ensures Expand(Ref(name), env, visiting).Err?
    ensures Shows(env, Ref(name), visiting, Expand(Ref(name), env, visiting).error, [name])
  {
    assert IsPath(env, Ref(name), [name]);
  }

  lemma ShowsThroughRef(name: string, env: Checks, visiting: set<string>, e: ExpandError, rest: seq<string>)
    requires Lookup(env, name).Some? && Shows(env, Lookup(env, name).value, visiting + {name}, e, rest)
    ensures Shows(env, Ref(name), visiting, e, [name] + rest)
  {
    var p := [name] + rest;
    PathThroughRef(env, name, rest);
    assert p[..|p| - 1] == [name] + rest[..|rest| - 1];
    assert p[|p| - 1] == rest[|rest| - 1];
  }

  lemma FailingChild(m: Matcher, env: Checks, visiting: set<string>) returns (i: nat)
    requires !m.Ref? && Expand(m, env, visiting).Err?
    ensures i < |Children(m)| && Expand(Children(m)[i], env, visiting) == Err(Expand(m, env, visiting).error)
  {
    if m.Not? {
      i := 0;
    } else {
      i := FailingMember(m.ms, env, visiting);
    }
  }

  // ---- What the expansion means ----

  /** `names` gives every bound name that can be reached the meaning of its check. */
  ghost predicate Interprets(names: string -> bool, env: Checks, m: Matcher, w: World, rule: string) {
    forall p | IsPath(env, m, p) && p != [] && Lookup(env, p[|p| - 1]).Some? ::
      names(p[|p| - 1]) == Meaning(Lookup(env, p[|p| - 1]).value, w, rule, names)
  }

  ghost predicate MeansTheSame(r: Matcher, m: Matcher, w: World, rule: string, names: string -> bool) {
    RefFree(r) && forall other: string -> bool :: Meaning(r, w, rule, other) == Meaning(m, w, rule, names)
  }

  lemma {:induction false} ChildInterprets(
    names: string -> bool, env: Checks, m: Matcher, i: nat, w: World, rule: string)
    requires Interprets(names, env, m, w, rule) && !m.Ref? && i < |Children(m)|
    ensures Interprets(names, env, Children(m)[i], w, rule)
  {
    forall p | IsPath(env, Children(m)[i], p) && p != [] && Lookup(env, p[|p| - 1]).Some?
      ensures names(p[|p| - 1]) == Meaning(Lookup(env, p[|p| - 1]).value, w, rule, names)
    {
      RefOfAChild(m, p[0]);
      assert IsPath(env, m, p);
    }
  }

  lemma CheckInterprets(names: string -> bool, env: Checks, name: string, w: World, rule: string)
    requires Interprets(names, env, Ref(name), w, rule) && Lookup(env, name).Some?
    ensures names(name) == Meaning(Lookup(env, name).value, w, rule, names)
    ensures Interprets(names, env, Lookup(env, name).value, w, rule)
  {
    var p := [name];
    assert IsPath(env, Ref(name), p) && p[|p| - 1] == name;
    var check := Lookup(env, name).value;
    forall p | IsPath(env, check, p) && p != [] && Lookup(env, p[|p| - 1]).Some?
      ensures names(p[|p| - 1]) == Meaning(Lookup(env, p[|p| - 1]).value, w, rule, names)
    {
      var q := [name] + p;
      assert q[1..] == p && q[|q| - 1] == p[|p| - 1];
      assert IsPath(env, Ref(name), q);
    }
  }

  /** The expansion holds no reference, and says what the condition says under any honest reading of the names. */
  lemma {:induction false} ExpandKeepsMeaning(
    m: Matcher, env: Checks, visiting: set<string>, w: World, rule: string, names: string -> bool)
    requires Expand(m, env, visiting).Ok? && Interprets(names, env, m, w, rule)
    ensures MeansTheSame(Expand(m, env, visiting).value, m, w, rule, names)
    decreases |Unvisited(env, visiting)|, m
  {
    if m.Ref? {
      ExpandRef(env, visiting, m.name);
      CheckInterprets(names, env, m.name, w, rule);
      ExpandKeepsMeaning(Lookup(env, m.name).value, env, visiting + {m.name}, w, rule, names);
    } else if m.Not? {
      assert Children(m)[0] == m.inner;
      ChildInterprets(names, env, m, 0, w, rule);
      ExpandKeepsMeaning(m.inner, env, visiting, w, rule, names);
    } else if m.All? || m.Any? {
      MembersKeepMeaning(m, env, visiting, w, rule, names);
    }
  }

  lemma {:induction false} MembersKeepMeaning(
    m: Matcher, env: Checks, visiting: set<string>, w: World, rule: string, names: string -> bool)
    requires m.All? || m.Any?
    requires Expand(m, env, visiting).Ok? && Interprets(names, env, m, w, rule)
    ensures MeansTheSame(Expand(m, env, visiting).value, m, w, rule, names)
    decreases |Unvisited(env, visiting)|, m, 0
  {
    var rs := ExpandList(m.ms, env, visiting).value;
    ListIsPointwise(m.ms, env, visiting);
    forall i | 0 <= i < |m.ms|
      ensures MeansTheSame(rs[i], m.ms[i], w, rule, names)
    {
      assert Children(m)[i] == m.ms[i];
      ChildInterprets(names, env, m, i, w, rule);
      ExpandKeepsMeaning(m.ms[i], env, visiting, w, rule, names);
    }
  }

  // ---- Such a reading exists ----

  lemma {:induction false} FewerVisited(m: Matcher, env: Checks, visiting: set<string>, fewer: set<string>)
    requires fewer <= visiting && Expand(m, env, visiting).Ok?
    ensures Expand(m, env, fewer) == Expand(m, env, visiting)
    decreases |Unvisited(env, visiting)|, m, 1
  {
    match m {
      case Ref(name) =>
        FollowingUsesUpAName(env, visiting, name);
        FewerVisited(Lookup(env, name).value, env, visiting + {name}, fewer + {name});
      case All(ms) => FewerVisitedList(ms, env, visiting, fewer);
      case Any(ms) => FewerVisitedList(ms, env, visiting, fewer);
      case Not(x) => FewerVisited(x, env, visiting, fewer);
      case _ =>
    }
  }

  lemma {:induction false} FewerVisitedList(ms: seq<Matcher>, env: Checks, visiting: set<string>, fewer: set<string>)
    requires fewer <= visiting && ExpandList(ms, env, visiting).Ok?
    ensures ExpandList(ms, env, fewer) == ExpandList(ms, env, visiting)
    decreases |Unvisited(env, visiting)|, ms, 0
  {
    if ms != [] {
      FewerVisited(ms[0], env, visiting, fewer);
      FewerVisitedList(ms[1..], env, visiting, fewer);
    }
  }

  /** Read each name as its own expansion. */
  function OwnReading(env: Checks, w: World, rule: string): string -> bool {
    name =>
      match Expand(Ref(name), env, {})
      case Ok(r) => Meaning(r, w, rule, _ => false)
      case Err(_) => false
  }

  lemma {:induction false} OwnReadingIsMeaning(m: Matcher, env: Checks, visiting: set<string>, w: World, rule: string)
    requires Expand(m, env, visiting).Ok?
    ensures Meaning(m, w, rule, OwnReading(env, w, rule)) ==
            Meaning(Expand(m, env, visiting).value, w, rule, _ => false)
    decreases m
  {
    match m {
      case Ref(name) => FewerVisited(m, env, visiting, {});
      case All(ms) =>
        ListIsPointwise(ms, env, visiting);
        forall i | 0 <= i < |ms| { OwnReadingIsMeaning(ms[i], env, visiting, w, rule); }
      case Any(ms) =>
        ListIsPointwise(ms, env, visiting);
        forall i | 0 <= i < |ms| { OwnReadingIsMeaning(ms[i], env, visiting, w, rule); }
      case Not(x) => OwnReadingIsMeaning(x, env, visiting, w, rule);
      case _ =>
    }
  }

  lemma {:induction false} ReferencedNameExpands(m: Matcher, env: Checks, visiting: set<string>, name: string)
    requires Expand(m, env, visiting).Ok? && name in Refs(m)
    ensures Expand(Ref(name), env, visiting).Ok?
    decreases m
  {
    if !m.Ref? {
      RefOfAChild(m, name);
      ChildrenExpand(m, env, visiting);
      var i :| 0 <= i < |Children(m)| && name in Refs(Children(m)[i]);
      ReferencedNameExpands(Children(m)[i], env, visiting, name);
    }
  }

  lemma {:induction false} ReachedNameExpands(m: Matcher, env: Checks, visiting: set<string>, p: seq<string>)
    requires Expand(m, env, visiting).Ok? && IsPath(env, m, p) && p != []
    ensures Expand(Ref(p[|p| - 1]), env, {}).Ok?
    decreases |p|
  {
    ReferencedNameExpands(m, env, visiting, p[0]);
    if |p| == 1 {
      FewerVisited(Ref(p[0]), env, visiting, {});
    } else {
      ReachedNameExpands(Lookup(env, p[0]).value, env, visiting + {p[0]}, p[1..]);
      assert p[1..][|p| - 2] == p[|p| - 1];
    }
  }

  /** Whenever expansion succeeds there is an honest reading of the names, so the meaning it keeps is a real one. */
  lemma ExpansionHasAReading(m: Matcher, env: Checks, w: World, rule: string)
    requires Expand(m, env, {}).Ok?
    ensures Interprets(OwnReading(env, w, rule), env, m, w, rule)
  {
    forall p | IsPath(env, m, p) && p != [] && Lookup(env, p[|p| - 1]).Some?
      ensures OwnReading(env, w, rule)(p[|p| - 1])
        == Meaning(Lookup(env, p[|p| - 1]).value, w, rule, OwnReading(env, w, rule))
    {
      var name := p[|p| - 1];
      ReachedNameExpands(m, env, {}, p);
      OwnReadingIsMeaning(Lookup(env, name).value, env, {} + {name}, w, rule);
    }
  }

  // ---- Expansion as it runs ----

  /** The names being followed; the source shares one such set across a whole rule. */
  class Visiting {
    var names: set<string>

    constructor ()
      ensures names == {}
    {
      names := {};
    }

    method Insert(name: string) returns (isNew: bool)
      modifies this
      ensures isNew == (name !in old(names)) && names == old(names) + {name}
    {
      isNew := name !in names;
      names := names + {name};
    }
  }

  function PrependAll(done: seq<Matcher>, r: Result<seq<Matcher>, ExpandError>): Result<seq<Matcher>, ExpandError> {
    match r
    case Err(e) => Err(e)
    case Ok(rest) => Ok(done + rest)
  }

  method ResolveInMatcher(m: Matcher, env: Checks, visiting: Visiting) returns (r: Result<Matcher, ExpandError>)
    modifies visiting
    ensures r == Expand(m, env, old(visiting.names))
    ensures r.Ok? ==> visiting.names == old(visiting.names)
    decreases |Unvisited(env, visiting.names)|, m, 1
  {
    match m
    case Ref(name) =>
      var isNew := visiting.Insert(name);
      if !isNew {
        return Err(Cycle(name));
      }
      var check := Lookup(env, name);
      if check.None? {
        return Err(UnknownCheck(name));
      }
      FollowingUsesUpAName(env, old(visiting.names), name);
      r := ResolveInMatcher(check.value, env, visiting);
      if r.Ok? {
        visiting.names := visiting.names - {name};
      }
    case All(ms) =>
      var rs := ResolveMembers(m, env, visiting);
      r := if rs.Ok? then Ok(All(rs.value)) else Err(rs.error);
    case Any(ms) =>
      var rs := ResolveMembers(m, env, visiting);
      r := if rs.Ok? then Ok(Any(rs.value)) else Err(rs.error);
    case Not(x) =>
      r := ResolveInMatcher(x, env, visiting);
      if r.Ok? {
        r := Ok(Matcher.Not(r.value));
      }
    case LeafExpr(_, _) =>
      r := Ok(m);
    case Leaf(_) =>
      r := Ok(m);
  }

  method ResolveMembers(m: Matcher, env: Checks, visiting: Visiting) returns (r: Result<seq<Matcher>, ExpandError>)
    requires m.All? || m.Any?
    modifies visiting
    ensures r == ExpandList(m.ms, env, old(visiting.names))
    ensures r.Ok? ==> visiting.names == old(visiting.names)
    decreases |Unvisited(env, visiting.names)|, m, 0
  {
    var done: seq<Matcher> := [];
    var i := 0;
    ghost var names := visiting.names;
    ListPrepends([], ExpandList(m.ms, env, names));
    assert m.ms[0..] == m.ms;
    while i < |m.ms|
      invariant i <= |m.ms| && visiting.names == names
      invariant ExpandList(m.ms, env, names) == PrependAll(done, ExpandList(m.ms[i..], env, names))
    {
      var c := ResolveInMatcher(m.ms[i], env, visiting);
      assert m.ms[i..][0] == m.ms[i] && m.ms[i..][1..] == m.ms[i + 1..];
      if c.Err? {
        return Err(c.error);
      }
      ghost var rest := ExpandList(m.ms[i + 1..], env, names);
      assert rest.Ok? ==> done + ([c.value] + rest.value) == done + [c.value] + rest.value;
      done := done + [c.value];
      i := i + 1;
    }
    ListPrepends(done, Ok([]));
    return Ok(done);
  }

  lemma ListPrepends(done: seq<Matcher>, r: Result<seq<Matcher>, ExpandError>)
    ensures PrependAll([], r) == r && PrependAll(done, Ok([])) == Ok(done)
  {
    assert done + [] == done;
    if r.Ok? {
      assert [] + r.value == r.value;
    }
  }
}
