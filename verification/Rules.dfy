/** The janitor's rule file. */
module Rules {
  import opened Basics
  import opened Matchers

  /** `serial` is the template of the lock key; `run` holds the kind of each action. */
  datatype ActionGroup = ActionGroup(when: Option<Matcher>, serial: Option<string>, run: seq<string>)

  datatype RuleDef = RuleDef(
    name: string,
    disabled: bool,
    dryRun: bool,
    priority: int,
    dependsOn: seq<string>,
    checks: map<string, Matcher>,
    when: Matcher,
    actions: seq<ActionGroup>)

  predicate GroupRefFree(g: ActionGroup) {
    g.when.Some? ==> RefFree(g.when.value)
  }

  /** No condition of the rule can reach a panic on a leftover reference. */
  predicate RuleRefFree(r: RuleDef) {
    RefFree(r.when) && forall i | 0 <= i < |r.actions| :: GroupRefFree(r.actions[i])
  }
}
