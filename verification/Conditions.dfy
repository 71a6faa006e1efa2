/** Which readiness condition is waited for after a resource is created. */
module Conditions {
  import opened Graphs

  type Condition = string

  /** For each resource, the condition each of its dependents imposes on it. */
  type ConditionMap = map<Id, map<Id, Condition>>

  function Priority(cond: Condition): nat {
    match cond
    case "healthy" => 3
    case "completed" => 2
    case "started" => 1
    case _ => 0
  }

  /** The strictest condition any dependent imposes; empty when none is recognised. */
  function StrictestOf(deps: map<Id, Condition>): Condition {
    if "healthy" in deps.Values then "healthy"
    else if "completed" in deps.Values then "completed"
    else if "started" in deps.Values then "started"
    else ""
  }

  lemma {:induction false} StrictestDominates(deps: map<Id, Condition>, dependent: Id)
    requires dependent in deps
    ensures Priority(deps[dependent]) <= Priority(StrictestOf(deps))
    ensures StrictestOf(deps) in deps.Values || forall c :: c in deps.Values ==> Priority(c) == 0
  {
    assert deps[dependent] in deps.Values;
  }

  /** The running maximum, over the dependents in whatever order the map yields them. */
  method Strictest(deps: map<Id, Condition>) returns (strictest: Condition)
    ensures strictest == StrictestOf(deps)
  {
    strictest := "";
    var rest := deps.Keys;
    while rest != {}
      invariant rest <= deps.Keys
      invariant strictest == "" || (Priority(strictest) > 0 && strictest in deps.Values)
      invariant forall d :: d in deps && d !in rest ==> Priority(deps[d]) <= Priority(strictest)
      decreases |rest|
    {
      var d :| d in rest;
      rest := rest - {d};
      if Priority(deps[d]) > Priority(strictest) {
        strictest := deps[d];
      }
    }
    forall c | c in deps.Values ensures Priority(c) <= Priority(strictest) {
      var d :| d in deps && deps[d] == c;
    }
  }
}
