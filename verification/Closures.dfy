/** The two reachability closures over declared needs: who needs a movement,
    and what a movement needs. */
module Closures {
  import opened Results
  import opened Sequences
  import opened Dependencies

  // ------------------------------------------------------------- reachability

  /** Each element of the path needs the next one. */
  ghost predicate NeedPath(index: map<Id, Movement>, path: seq<Id>) {
    path != [] && forall i | 0 <= i < |path| - 1 :: path[i + 1] in NeedsOf(index, path[i])
  }

  ghost predicate Connects(index: map<Id, Movement>, path: seq<Id>, from: Id, to: Id) {
    NeedPath(index, path) && path[0] == from && path[|path| - 1] == to
  }

  /** `from` is `to`, or needs it directly or through others. */
  ghost predicate Reaches(index: map<Id, Movement>, from: Id, to: Id) {
    exists path :: Connects(index, path, from, to)
  }

  lemma ReachesItself(index: map<Id, Movement>, id: Id)
    ensures Reaches(index, id, id)
  {
    assert Connects(index, [id], id, id);
  }

  lemma ReachesThroughNeed(index: map<Id, Movement>, from: Id, need: Id, to: Id)
    requires need in NeedsOf(index, from) && Reaches(index, need, to)
    ensures Reaches(index, from, to)
  {
    var path :| Connects(index, path, need, to);
    assert Connects(index, [from] + path, from, to);
  }

  lemma ReachesFurther(index: map<Id, Movement>, from: Id, to: Id, need: Id)
    requires need in NeedsOf(index, to) && Reaches(index, from, to)
    ensures Reaches(index, from, need)
  {
    var path :| Connects(index, path, from, to);
    assert Connects(index, path + [need], from, need);
  }

  lemma RestOfPath(index: map<Id, Movement>, path: seq<Id>)
    requires NeedPath(index, path) && |path| > 1
    ensures NeedPath(index, path[1..]) && path[1] in NeedsOf(index, path[0])
  {
    assert path[0 + 1] in NeedsOf(index, path[0]);
    forall i | 0 <= i < |path| - 2 ensures path[1..][i + 1] in NeedsOf(index, path[1..][i]) {
      assert path[i + 1 + 1] in NeedsOf(index, path[i + 1]);
    }
  }

  /** Whoever needs a selected movement is selected. */
  ghost predicate ClosedUpwards(index: map<Id, Movement>, selected: set<Id>) {
    forall id, need | id in index && need in index[id].needs && need in selected :: id in selected
  }

  lemma {:induction false} SelectedAlongPath(index: map<Id, Movement>, selected: set<Id>, path: seq<Id>)
    requires ClosedUpwards(index, selected) && NeedPath(index, path) && path[|path| - 1] in selected
    ensures path[0] in selected
    decreases |path|
  {
    if |path| > 1 {
      RestOfPath(index, path);
      SelectedAlongPath(index, selected, path[1..]);
    }
  }

  /** A closed set of movements that reach `id` holds all movements that do. */
  lemma ClosedIsDownstream(index: map<Id, Movement>, selected: set<Id>, id: Id)
    requires ClosedUpwards(index, selected) && id in selected
    requires forall m | m in selected :: Reaches(index, m, id)
    ensures forall m :: m in selected <==> Reaches(index, m, id)
  {
    forall m | Reaches(index, m, id) ensures m in selected {
      var path :| Connects(index, path, m, id);
      SelectedAlongPath(index, selected, path);
    }
  }

  lemma {:induction false} DeclaredNeeds(movements: seq<Movement>, m: Movement)
    requires DistinctIds(movements) && m in movements
    ensures m.id in ById(movements) && ById(movements)[m.id] == m
  {
    var found := ById(movements)[m.id];
    var i :| 0 <= i < |movements| && movements[i] == m;
    var j :| 0 <= j < |movements| && movements[j] == found;
  }

  // --------------------------------------------------------------- downstream

  predicate NamesAny(needs: seq<Id>, selected: set<Id>) {
    exists need | need in needs :: need in selected
  }

  lemma SelectedNeed(movements: seq<Movement>, m: Movement, selected: set<Id>, id: Id)
    requires DistinctIds(movements) && m in movements && NamesAny(m.needs, selected)
    requires forall other | other in selected :: Reaches(ById(movements), other, id)
    ensures m.id in ById(movements) && Reaches(ById(movements), m.id, id)
  {
    DeclaredNeeds(movements, m);
    var need :| need in m.needs && need in selected;
    ReachesThroughNeed(ById(movements), m.id, need, id);
  }

  /** One pass over the movements, adding each that needs a selected one. */
  method SelectOnce(movements: seq<Movement>, before: set<Id>, ghost id: Id) returns (selected: set<Id>, changed: bool)
    requires DistinctIds(movements)
    requires forall m | m in before :: Reaches(ById(movements), m, id)
    ensures before <= selected <= before + ById(movements).Keys
    ensures changed <==> selected != before
    ensures forall m | m in selected :: Reaches(ById(movements), m, id)
    ensures !changed ==> ClosedUpwards(ById(movements), selected)
  {
    hide Reaches, ClosedUpwards, DistinctIds, NamesAny;
    ghost var index := ById(movements);
    selected, changed := before, false;
    for k := 0 to |movements|
      invariant before <= selected <= before + index.Keys
      invariant changed <==> selected != before
      invariant forall m | m in selected :: Reaches(index, m, id)
      invariant !changed ==> forall i | 0 <= i < k :: movements[i].id in before || !NamesAny(movements[i].needs, before)
    {
      var movement := movements[k];
      if movement.id !in selected && NamesAny(movement.needs, selected) {
        SelectedNeed(movements, movement, selected, id);
        selected := selected + {movement.id};
        changed := true;
      }
    }
    if !changed {
      NothingToSelect(movements, selected);
    }
  }

  lemma NothingToSelect(movements: seq<Movement>, selected: set<Id>)
    requires forall i | 0 <= i < |movements| :: movements[i].id in selected || !NamesAny(movements[i].needs, selected)
    ensures ClosedUpwards(ById(movements), selected)
  {
    var index := ById(movements);
    forall m, need | m in index && need in index[m].needs && need in selected ensures m in selected {
      var i :| 0 <= i < |movements| && movements[i] == index[m];
      assert NamesAny(movements[i].needs, selected);
    }
  }

  /** Whether an attempt exists on the movement or on any movement that
      transitively needs it. */
  method MovementOrDownstreamStarted(movements: seq<Movement>, attempts: map<string, Id>, id: Id)
    returns (started: bool)
    requires DistinctIds(movements)
    ensures started <==> exists a | a in attempts :: Reaches(ById(movements), attempts[a], id)
  {
    hide Reaches, ClosedUpwards;
    ghost var universe := ById(movements).Keys + {id};
    var selected := {id};
    var changed := true;
    ReachesItself(ById(movements), id);
    while changed
      invariant id in selected && selected <= universe
      invariant forall m | m in selected :: Reaches(ById(movements), m, id)
      invariant !changed ==> ClosedUpwards(ById(movements), selected)
      decreases universe - selected, changed
    {
      selected, changed := SelectOnce(movements, selected, id);
    }
    ClosedIsDownstream(ById(movements), selected, id);
    started := exists a | a in attempts :: attempts[a] in selected;
  }

  // ----------------------------------------------------------------- upstream

  /** Needs of the members that were added since `before` are members too. */
  ghost predicate ClosedDownwards(index: map<Id, Movement>, before: set<Id>, closure: set<Id>) {
    forall id | id in closure - before :: id in index && forall need | need in index[id].needs :: need in closure
  }

  ghost predicate AllReached(index: map<Id, Movement>, from: Id, before: set<Id>, closure: set<Id>) {
    forall id | id in closure - before :: Reaches(index, from, id)
  }

  lemma AllReachedThroughNeed(index: map<Id, Movement>, from: Id, need: Id, before: set<Id>, closure: set<Id>)
    requires need in NeedsOf(index, from) && AllReached(index, need, before, closure)
    ensures AllReached(index, from, before, closure)
  {
    forall id | id in closure - before ensures Reaches(index, from, id) {
      ReachesThroughNeed(index, from, need, id);
    }
  }

  /** Adds a movement and everything it needs; fails on an undeclared one. */
  method Visit(index: map<Id, Movement>, before: set<Id>, id: Id) returns (result: Result<set<Id>, Id>)
    ensures result.Ok? ==>
      && before + {id} <= result.value
      && ClosedDownwards(index, before, result.value) && AllReached(index, id, before, result.value)
    ensures result.Err? ==> result.error !in index && Reaches(index, id, result.error)
    decreases index.Keys - before
  {
    hide Reaches;
    ReachesItself(index, id);
    if id in before {
      return Ok(before);
    }
    if id !in index {
      return Err(id);
    }
    var closure := before + {id};
    var needs := index[id].needs;
    for k := 0 to |needs|
      invariant before + {id} <= closure
      invariant forall i | 0 <= i < k :: needs[i] in closure
      invariant ClosedDownwards(index, before + {id}, closure)
      invariant AllReached(index, id, before, closure)
    {
      assert needs[k] in NeedsOf(index, id);
      var visited := Visit(index, closure, needs[k]);
      if visited.Err? {
        ReachesThroughNeed(index, id, needs[k], visited.error);
        return visited;
      }
      AllReachedThroughNeed(index, id, needs[k], closure, visited.value);
      closure := visited.value;
    }
    return Ok(closure);
  }

  /** What a movement transitively needs, not counting how it is reached. */
  ghost predicate Needs(index: map<Id, Movement>, target: Id, id: Id) {
    exists need | need in NeedsOf(index, target) :: Reaches(index, need, id)
  }

  lemma NeedsEverythingReached(index: map<Id, Movement>, closure: set<Id>, need: Id, id: Id)
    requires ClosedDownwards(index, {}, closure) && need in closure && Reaches(index, need, id)
    ensures id in closure
  {
    var path :| Connects(index, path, need, id);
    InClosureAlongPath(index, closure, path);
  }

  lemma {:induction false} InClosureAlongPath(index: map<Id, Movement>, closure: set<Id>, path: seq<Id>)
    requires ClosedDownwards(index, {}, closure) && NeedPath(index, path) && path[0] in closure
    ensures path[|path| - 1] in closure
    decreases |path|
  {
    if |path| > 1 {
      RestOfPath(index, path);
      InClosureAlongPath(index, closure, path[1..]);
    }
  }

  /** The transitive needs of a declared movement; fails exactly when one of
      them is not declared. */
  method DependencyClosure(index: map<Id, Movement>, target: Id) returns (result: Result<set<Id>, Id>)
    requires target in index
    ensures result.Ok? ==> forall id :: id in result.value <==> Needs(index, target, id)
    ensures result.Ok? <==> forall id | Needs(index, target, id) :: id in index
    ensures result.Err? ==> result.error !in index && Needs(index, target, result.error)
  {
    hide Reaches;
    var closure: set<Id> := {};
    var needs := index[target].needs;
    for k := 0 to |needs|
      invariant forall i | 0 <= i < k :: needs[i] in closure
      invariant ClosedDownwards(index, {}, closure)
      invariant forall id | id in closure :: Needs(index, target, id)
    {
      var visited := Visit(index, closure, needs[k]);
      if visited.Err? {
        return visited;
      }
      forall id | id in visited.value ensures Needs(index, target, id) {
        if id !in closure {
          assert needs[k] in NeedsOf(index, target) && Reaches(index, needs[k], id);
        }
      }
      closure := visited.value;
    }
    forall id | Needs(index, target, id) ensures id in closure {
      var need :| need in NeedsOf(index, target) && Reaches(index, need, id);
      NeedsEverythingReached(index, closure, need, id);
    }
    return Ok(closure);
  }

  datatype CompositionError = IncompleteInput | AbsentTarget | AbsentDependency(id: Id) | Unordered

  /** Some of a movement's transitive needs need one another in a circle. */
  ghost predicate CyclicNeeds(index: map<Id, Movement>, target: Id) {
    exists cycle :: IsCycle(index, SetOf(cycle), cycle) && AllNeeded(index, target, cycle)
  }

  ghost predicate AllNeeded(index: map<Id, Movement>, target: Id, ids: seq<Id>) {
    forall id | id in ids :: Needs(index, target, id)
  }

  /** The movements whose results a movement's base is composed of, in order.
      It fails exactly on an empty or undeclared target, an undeclared transitive
      need, a cycle among the needs, or a need with the empty id. */
  method ContributorOrder(movements: seq<Movement>, target: Id) returns (result: Result<seq<Id>, CompositionError>)
    ensures target == "" <==> result == Err(IncompleteInput)
    ensures target != "" && target !in ById(movements) <==> result == Err(AbsentTarget)
    ensures result.Err? && result.error.AbsentDependency? ==>
              Needs(ById(movements), target, result.error.id) && result.error.id !in ById(movements)
    ensures target != "" && target in ById(movements) ==>
              (result.Err? && result.error.AbsentDependency? <==>
                 exists id | Needs(ById(movements), target, id) :: id !in ById(movements))
    ensures result == Err(Unordered) <==>
              && target != "" && target in ById(movements)
              && (forall id | Needs(ById(movements), target, id) :: id in ById(movements))
              && (CyclicNeeds(ById(movements), target) || Needs(ById(movements), target, ""))
    ensures result.Ok? ==> Distinct(result.value)
    ensures result.Ok? ==> forall id :: id in result.value <==> Needs(ById(movements), target, id)
    ensures result.Ok? ==>
              forall k, need | 0 <= k < |result.value| && need in NeedsOf(ById(movements), result.value[k]) ::
                need in result.value[..k]
  {
    hide Needs, IsStable, Cyclic, CyclicNeeds;
    if target == "" {
      return Err(IncompleteInput);
    }
    var index := ById(movements);
    if target !in index {
      return Err(AbsentTarget);
    }
    var closure := DependencyClosure(index, target);
    if closure.Err? {
      return Err(AbsentDependency(closure.error));
    }
    CyclicNeedsAre(index, target, closure.value);
    var ordered := StableTopologicalMovementIDs(movements, closure.value);
    if ordered.Err? {
      return Err(Unordered);
    }
    OrderIsDistinct(index, closure.value, ordered.value);
    FitsInto(ordered.value, closure.value);
    assert forall id :: id in ordered.value <==> id in SetOf(ordered.value);
    forall k, need | 0 <= k < |ordered.value| && need in NeedsOf(index, ordered.value[k])
      ensures need in ordered.value[..k]
    {
      assert Available(index, closure.value, ordered.value[..k], ordered.value[k]);
      NeedsFurther(index, target, ordered.value[k], need);
    }
    return Ok(ordered.value);
  }

  lemma CyclicNeedsAre(index: map<Id, Movement>, target: Id, closure: set<Id>)
    requires forall id :: id in closure <==> Needs(index, target, id)
    ensures CyclicNeeds(index, target) <==> Cyclic(index, closure)
  {
    hide Needs;
    if CyclicNeeds(index, target) {
      var cycle :| IsCycle(index, SetOf(cycle), cycle) && AllNeeded(index, target, cycle);
      assert IsCycle(index, closure, cycle);
    }
    if Cyclic(index, closure) {
      var cycle :| IsCycle(index, closure, cycle);
      assert IsCycle(index, SetOf(cycle), cycle) && AllNeeded(index, target, cycle);
    }
  }

  lemma NeedsFurther(index: map<Id, Movement>, target: Id, id: Id, need: Id)
    requires Needs(index, target, id) && need in NeedsOf(index, id)
    ensures Needs(index, target, need)
  {
    var first :| first in NeedsOf(index, target) && Reaches(index, first, id);
    ReachesFurther(index, first, id, need);
  }
}
