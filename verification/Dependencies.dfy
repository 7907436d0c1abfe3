/** Dependency graphs of movements: the stable topological order of a subset. */
module Dependencies {
  import opened Results
  import opened Sequences

  type Id = string

  datatype Movement = Movement(id: Id, needs: seq<Id>)

  datatype OrderError = AbsentMovement(id: Id) | CyclicGraph

  /** Movements by id; a later declaration of the same id wins. */
  function ById(movements: seq<Movement>): (index: map<Id, Movement>)
    ensures forall id | id in index :: index[id] in movements && index[id].id == id
    ensures forall m | m in movements :: m.id in index
  {
    if movements == [] then map[]
    else ById(movements[..|movements| - 1])[movements[|movements| - 1].id := movements[|movements| - 1]]
  }

  function NeedsOf(index: map<Id, Movement>, id: Id): seq<Id> {
    if id in index then index[id].needs else []
  }

  ghost predicate DistinctIds(movements: seq<Movement>) {
    forall i, j | 0 <= i < j < |movements| :: movements[i].id != movements[j].id
  }

  // ---------------------------------------------------------- what is an order

  /** `id` may come next after the ids of `before`. */
  ghost predicate Available(index: map<Id, Movement>, included: set<Id>, before: seq<Id>, id: Id) {
    && id in included && id !in before
    && forall need | need in NeedsOf(index, id) && need in included :: need in before
  }

  /** A permutation of the included ids, with every included need earlier. */
  ghost predicate IsOrder(index: map<Id, Movement>, included: set<Id>, order: seq<Id>) {
    && |order| == |included|
    && forall k | 0 <= k < |order| :: Available(index, included, order[..k], order[k])
  }

  function Position(movements: seq<Movement>, id: Id): (p: nat)
    ensures p <= |movements| && (p < |movements| ==> movements[p].id == id)
    ensures forall i | 0 <= i < p :: movements[i].id != id
  {
    if movements == [] || movements[0].id == id then 0 else 1 + Position(movements[1..], id)
  }

  ghost predicate Earliest(movements: seq<Movement>, included: set<Id>, before: seq<Id>, id: Id) {
    && Available(ById(movements), included, before, id)
    && forall other | Available(ById(movements), included, before, other) ::
      Position(movements, id) <= Position(movements, other)
  }

  /** An order in which each id is the earliest declared one that may come next. */
  ghost predicate IsStable(movements: seq<Movement>, included: set<Id>, order: seq<Id>) {
    && |order| <= |included|
    && forall k | 0 <= k < |order| :: Earliest(movements, included, order[..k], order[k])
  }

  ghost predicate Declared(movements: seq<Movement>, included: set<Id>) {
    forall id | id in included :: id in ById(movements)
  }

  /** A closed walk over needs inside the included set. */
  ghost predicate IsCycle(index: map<Id, Movement>, included: set<Id>, cycle: seq<Id>) {
    && |cycle| > 1 && cycle[0] == cycle[|cycle| - 1]
    && (forall id | id in cycle :: id in included)
    && forall i | 0 <= i < |cycle| - 1 :: cycle[i + 1] in NeedsOf(index, cycle[i])
  }

  ghost predicate Cyclic(index: map<Id, Movement>, included: set<Id>) {
    exists cycle :: IsCycle(index, included, cycle)
  }

  // --------------------------------------------------------- lexicographic order

  lemma PositionsDiffer(movements: seq<Movement>, a: Id, b: Id)
    requires a in ById(movements) && b in ById(movements) && a != b
    ensures Position(movements, a) != Position(movements, b)
  {
    var m := ById(movements)[a];
    assert m in movements && m.id == a;
  }

  /** The stable order is lexicographically least by declaration position. */
  lemma StableIsLeast(movements: seq<Movement>, included: set<Id>, order: seq<Id>, other: seq<Id>, k: nat)
    requires Declared(movements, included)
    requires IsStable(movements, included, order) && IsOrder(ById(movements), included, other)
    requires k < |order| && k < |other| && order[..k] == other[..k] && order[k] != other[k]
    ensures Position(movements, order[k]) < Position(movements, other[k])
  {
    assert Earliest(movements, included, order[..k], order[k]);
    assert Available(ById(movements), included, other[..k], other[k]);
    PositionsDiffer(movements, order[k], other[k]);
  }

  lemma EarliestIsUnique(movements: seq<Movement>, included: set<Id>, before: seq<Id>, a: Id, b: Id)
    requires Declared(movements, included)
    requires Earliest(movements, included, before, a) && Earliest(movements, included, before, b)
    ensures a == b
  {
    if a != b {
      PositionsDiffer(movements, a, b);
    }
  }

  /** Only one list is a complete stable order. */
  lemma {:induction false} StableIsUnique(movements: seq<Movement>, included: set<Id>, order: seq<Id>, other: seq<Id>,
                                          k: nat)
    requires Declared(movements, included)
    requires IsStable(movements, included, order) && IsStable(movements, included, other)
    requires k <= |order| && k <= |other|
    ensures order[..k] == other[..k]
    decreases k
  {
    hide Earliest, Declared;
    if k > 0 {
      StableIsUnique(movements, included, order, other, k - 1);
      EarliestIsUnique(movements, included, order[..k - 1], order[k - 1], other[k - 1]);
      assert order[..k] == order[..k - 1] + [order[k - 1]];
      assert other[..k] == other[..k - 1] + [other[k - 1]];
    }
  }

  // -------------------------------------------------------------------- cycles

  ghost predicate NeedsInside(index: map<Id, Movement>, stuck: set<Id>, id: Id) {
    exists need | need in NeedsOf(index, id) :: need in stuck
  }

  ghost predicate IsWalk(index: map<Id, Movement>, inside: set<Id>, walk: seq<Id>) {
    && walk != [] && (forall id | id in walk :: id in inside)
    && forall i | 0 <= i < |walk| - 1 :: walk[i + 1] in NeedsOf(index, walk[i])
  }

  lemma ExtendWalk(index: map<Id, Movement>, inside: set<Id>, walk: seq<Id>, next: Id)
    requires IsWalk(index, inside, walk) && next in inside && next in NeedsOf(index, walk[|walk| - 1])
    ensures IsWalk(index, inside, walk + [next])
    ensures forall i | 0 <= i < |walk| && walk[i] == next :: IsCycle(index, inside, walk[i..] + [next])
  {
  }

  lemma NextNeed(index: map<Id, Movement>, stuck: set<Id>, walk: seq<Id>) returns (next: Id)
    requires forall id | id in stuck :: NeedsInside(index, stuck, id)
    requires IsWalk(index, stuck, walk)
    ensures walk != [] && next in stuck && next in NeedsOf(index, walk[|walk| - 1])
  {
    assert NeedsInside(index, stuck, walk[|walk| - 1]);
    next :| next in NeedsOf(index, walk[|walk| - 1]) && next in stuck;
  }

  lemma WalkFits(index: map<Id, Movement>, inside: set<Id>, walk: seq<Id>)
    requires IsWalk(index, inside, walk) && Distinct(walk)
    ensures |walk| <= |inside|
  {
    FitsInto(walk, inside);
  }

  /** Following needs that never leave a finite set runs into a cycle. */
  lemma {:induction false} FindCycle(index: map<Id, Movement>, stuck: set<Id>, walk: seq<Id>) returns (cycle: seq<Id>)
    requires forall id | id in stuck :: NeedsInside(index, stuck, id)
    requires IsWalk(index, stuck, walk) && Distinct(walk)
    ensures IsCycle(index, stuck, cycle)
    decreases |stuck| - |walk|
  {
    hide IsCycle, IsWalk, NeedsInside;
    var next := NextNeed(index, stuck, walk);
    ExtendWalk(index, stuck, walk, next);
    if next in walk {
      var i :| 0 <= i < |walk| && walk[i] == next;
      cycle := walk[i..] + [next];
    } else {
      WalkFits(index, stuck, walk + [next]);
      cycle := FindCycle(index, stuck, walk + [next]);
    }
  }

  /** No order exists for a cyclic graph: a cycle member would precede itself. */
  lemma CyclicHasNoOrder(index: map<Id, Movement>, included: set<Id>, order: seq<Id>, cycle: seq<Id>)
    requires IsCycle(index, included, cycle)
    ensures !IsOrder(index, included, order)
  {
    if IsOrder(index, included, order) {
      OrderIsDistinct(index, included, order);
      FitsInto(order, included);
      assert cycle[0] in SetOf(order);
      var k :| 0 <= k < |order| && order[k] == cycle[0];
      CycleGoesBack(index, included, order, cycle, |cycle| - 1, k);
    }
  }

  lemma OrderIsDistinct(index: map<Id, Movement>, included: set<Id>, order: seq<Id>)
    requires forall k | 0 <= k < |order| :: Available(index, included, order[..k], order[k])
    ensures Distinct(order) && forall id | id in order :: id in included
  {
    forall i, j | 0 <= i < j < |order| ensures order[i] != order[j] {
      assert Available(index, included, order[..j], order[j]);
      assert order[..j][i] == order[i];
    }
    forall id | id in order ensures id in included {
      var k :| 0 <= k < |order| && order[k] == id;
      assert Available(index, included, order[..k], order[k]);
    }
  }

  /** Along a cycle, positions in an order strictly decrease. */
  lemma {:induction false} CycleGoesBack(index: map<Id, Movement>, included: set<Id>, order: seq<Id>, cycle: seq<Id>,
                                         n: nat, k: nat)
    requires IsOrder(index, included, order) && Distinct(order) && IsCycle(index, included, cycle)
    requires 0 < n < |cycle| && k < |order| && order[k] == cycle[0]
    ensures exists j | 0 <= j < k :: order[j] == cycle[n]
    decreases n
  {
    var from: nat := k;
    if n > 1 {
      CycleGoesBack(index, included, order, cycle, n - 1, k);
      var j :| 0 <= j < k && order[j] == cycle[n - 1];
      from := j;
    }
    assert Available(index, included, order[..from], order[from]);
    assert cycle[n - 1 + 1] in NeedsOf(index, cycle[n - 1]) && cycle[n] in included;
    var j :| 0 <= j < from && order[..from][j] == cycle[n];
    assert order[j] == cycle[n];
  }

  // ---------------------------------------------------------------- counting

  /** How many entries of `needs` are still to come. */
  ghost function Open(needs: seq<Id>, left: set<Id>): nat {
    if needs == [] then 0
    else Open(needs[..|needs| - 1], left) + if needs[|needs| - 1] in left then 1 else 0
  }

  lemma {:induction false} OpenIsZero(needs: seq<Id>, left: set<Id>)
    ensures Open(needs, left) == 0 <==> forall need | need in needs :: need !in left
    decreases |needs|
  {
    if needs != [] {
      var init, last := needs[..|needs| - 1], needs[|needs| - 1];
      OpenIsZero(init, left);
      assert forall need :: need in needs <==> need in init || need == last;
    }
  }

  lemma {:induction false} OpenAfter(needs: seq<Id>, left: set<Id>, id: Id)
    requires id in left
    ensures Open(needs, left - {id}) == Open(needs, left) - multiset(needs)[id]
    decreases |needs|
  {
    if needs != [] {
      var init, last := needs[..|needs| - 1], needs[|needs| - 1];
      OpenAfter(init, left, id);
      assert needs == init + [last];
    }
  }

  function Count(indegree: map<Id, int>, id: Id): int {
    if id in indegree then indegree[id] else 0
  }

  function ChildrenOf(children: map<Id, seq<Id>>, id: Id): seq<Id> {
    if id in children then children[id] else []
  }

  /** The recorded ids have their count of open needs, all others have none. */
  ghost predicate Counts(index: map<Id, Movement>, recorded: set<Id>, left: set<Id>, indegree: map<Id, int>) {
    forall id :: Count(indegree, id) == if id in recorded then Open(NeedsOf(index, id), left) else 0
  }

  /** An id is a child of each included need as often as it names that need. */
  ghost predicate Links(index: map<Id, Movement>, included: set<Id>, recorded: set<Id>, children: map<Id, seq<Id>>) {
    forall need, id :: multiset(ChildrenOf(children, need))[id]
      == if need in included && id in recorded then multiset(NeedsOf(index, id))[need] else 0
  }

  /** `id` has counted the included ones among `needs`; the others are as before. */
  ghost predicate Counted(before: map<Id, int>, indegree: map<Id, int>, id: Id, needs: seq<Id>, included: set<Id>) {
    forall other :: Count(indegree, other) == if other == id then Open(needs, included) else Count(before, other)
  }

  /** `id` has been added as a child of each included one among `needs`. */
  ghost predicate Linked(before: map<Id, seq<Id>>, children: map<Id, seq<Id>>, id: Id, needs: seq<Id>,
                         included: set<Id>)
  {
    forall need, other :: LinkedAt(before, children, id, needs, included, need, other)
  }

  ghost predicate LinkedAt(before: map<Id, seq<Id>>, children: map<Id, seq<Id>>, id: Id, needs: seq<Id>,
                           included: set<Id>, need: Id, other: Id)
  {
    multiset(ChildrenOf(children, need))[other]
    == multiset(ChildrenOf(before, need))[other] +
      (if other == id && need in included then multiset(needs)[need] else 0)
  }

  lemma CountNeed(before: map<Id, int>, indegree: map<Id, int>, id: Id, needs: seq<Id>, need: Id, included: set<Id>)
    requires Counted(before, indegree, id, needs, included)
    ensures Counted(before, if need in included then indegree[id := Count(indegree, id) + 1] else indegree,
                    id, needs + [need], included)
  {
    assert (needs + [need])[..|needs|] == needs;
  }

  lemma LinkNeed(before: map<Id, seq<Id>>, children: map<Id, seq<Id>>, id: Id, needs: seq<Id>, need: Id,
                 included: set<Id>)
    requires Linked(before, children, id, needs, included)
    ensures Linked(before, if need in included then children[need := ChildrenOf(children, need) + [id]] else children,
                   id, needs + [need], included)
  {
    var updated := if need in included then children[need := ChildrenOf(children, need) + [id]] else children;
    assert multiset(needs + [need]) == multiset(needs) + multiset{need};
    forall any, other ensures LinkedAt(before, updated, id, needs + [need], included, any, other) {
      assert LinkedAt(before, children, id, needs, included, any, other);
      if any == need && need in included {
        assert ChildrenOf(updated, any) == ChildrenOf(children, any) + [id];
      } else {
        assert ChildrenOf(updated, any) == ChildrenOf(children, any);
      }
    }
  }

  lemma RecordedAll(index: map<Id, Movement>, included: set<Id>, recorded: set<Id>, id: Id,
                    before: map<Id, int>, indegree: map<Id, int>, linked: map<Id, seq<Id>>, children: map<Id, seq<Id>>)
    requires id !in recorded && Counts(index, recorded, included, before) && Links(index, included, recorded, linked)
    requires Counted(before, indegree, id, NeedsOf(index, id), included)
    requires Linked(linked, children, id, NeedsOf(index, id), included)
    ensures Counts(index, recorded + {id}, included, indegree) && Links(index, included, recorded + {id}, children)
  {
    hide NeedsOf, Count, ChildrenOf;
    forall need, other
      ensures multiset(ChildrenOf(children, need))[other]
        == if need in included && other in recorded + {id} then multiset(NeedsOf(index, other))[need] else 0
    {
      assert LinkedAt(linked, children, id, NeedsOf(index, id), included, need, other);
    }
  }

  /** Records the needs of one included movement. */
  method Record(index: map<Id, Movement>, included: set<Id>, ghost recorded: set<Id>, id: Id,
                before: map<Id, int>, linked: map<Id, seq<Id>>)
    returns (indegree: map<Id, int>, children: map<Id, seq<Id>>)
    requires id !in recorded && Counts(index, recorded, included, before) && Links(index, included, recorded, linked)
    ensures Counts(index, recorded + {id}, included, indegree)
    ensures Links(index, included, recorded + {id}, children)
  {
    hide NeedsOf, Counted, Linked, Counts, Links, Count, ChildrenOf;
    indegree, children := before, linked;
    var needs := NeedsOf(index, id);
    NothingRecordedFor(index, included, recorded, id, before, linked);
    assert needs[..0] == [];
    for k := 0 to |needs|
      invariant Counted(before, indegree, id, needs[..k], included) &&
                  Linked(linked, children, id, needs[..k], included)
    {
      var dependency := needs[k];
      assert needs[..k + 1] == needs[..k] + [dependency];
      CountNeed(before, indegree, id, needs[..k], dependency, included);
      LinkNeed(linked, children, id, needs[..k], dependency, included);
      if dependency in included {
        indegree := indegree[id := Count(indegree, id) + 1];
        children := children[dependency := ChildrenOf(children, dependency) + [id]];
      }
    }
    assert needs[..|needs|] == needs;
    RecordedAll(index, included, recorded, id, before, indegree, linked, children);
  }

  lemma NothingRecordedFor(index: map<Id, Movement>, included: set<Id>, recorded: set<Id>, id: Id,
                           indegree: map<Id, int>, children: map<Id, seq<Id>>)
    requires id !in recorded && Counts(index, recorded, included, indegree)
    ensures Counted(indegree, indegree, id, [], included) && Linked(children, children, id, [], included)
  {
  }

  lemma NothingRecorded(index: map<Id, Movement>, included: set<Id>)
    ensures Counts(index, {}, included, map[]) && Links(index, included, {}, map[])
  {
  }

  ghost predicate Ready(included: set<Id>, indegree: map<Id, int>, emitted: set<Id>, id: Id) {
    id in included && Count(indegree, id) == 0 && id !in emitted
  }

  /** Counts the included needs of every included movement, in any order. */
  method CountNeeds(index: map<Id, Movement>, included: set<Id>)
    returns (absent: Option<Id>, indegree: map<Id, int>, children: map<Id, seq<Id>>)
    ensures absent.Some? ==> absent.value in included && absent.value !in index
    ensures absent.None? ==> forall id | id in included :: id in index
    ensures absent.None? ==> Counts(index, included, included, indegree) && Links(index, included, included, children)
  {
    hide Counts, Links;
    indegree, children := map[], map[];
    var todo := included;
    ghost var recorded: set<Id> := {};
    NothingRecorded(index, included);
    while todo != {}
      invariant recorded + todo == included && recorded !! todo
      invariant forall id | id in recorded :: id in index
      invariant Counts(index, recorded, included, indegree) && Links(index, included, recorded, children)
      decreases |todo|
    {
      var id :| id in todo;
      if id !in index {
        return Some(id), indegree, children;
      }
      indegree, children := Record(index, included, recorded, id, indegree, children);
      todo := todo - {id};
      recorded := recorded + {id};
    }
    return None, indegree, children;
  }

  /** The first declared movement that is included, ready and not yet emitted.
      The empty id stands for none, even when it is the one found. */
  method FirstReady(movements: seq<Movement>, included: set<Id>, indegree: map<Id, int>, emitted: set<Id>)
    returns (selected: Id)
    ensures selected != "" ==> Ready(included, indegree, emitted, selected)
    ensures forall i | 0 <= i < Position(movements, selected) :: !Ready(included, indegree, emitted, movements[i].id)
    ensures selected == "" && !Ready(included, indegree, emitted, "") ==>
              forall m | m in movements :: !Ready(included, indegree, emitted, m.id)
  {
    for k := 0 to |movements|
      invariant forall i | 0 <= i < k :: !Ready(included, indegree, emitted, movements[i].id)
    {
      var id := movements[k].id;
      if id in included && Count(indegree, id) == 0 && id !in emitted {
        return id;
      }
    }
    return "";
  }

  method Release(before: map<Id, int>, kids: seq<Id>) returns (indegree: map<Id, int>)
    ensures forall id :: Count(indegree, id) == Count(before, id) - multiset(kids)[id]
  {
    indegree := before;
    for k := 0 to |kids|
      invariant forall id :: Count(indegree, id) == Count(before, id) - multiset(kids[..k])[id]
    {
      assert kids[..k + 1] == kids[..k] + [kids[k]];
      indegree := indegree[kids[k] := Count(indegree, kids[k]) - 1];
    }
    assert kids[..|kids|] == kids;
  }

  lemma CountsAfter(index: map<Id, Movement>, included: set<Id>, left: set<Id>, id: Id,
                    before: map<Id, int>, after: map<Id, int>, children: map<Id, seq<Id>>)
    requires id in left && left <= included
    requires Counts(index, included, left, before) && Links(index, included, included, children)
    requires forall other :: Count(after, other) == Count(before, other) - multiset(ChildrenOf(children, id))[other]
    ensures Counts(index, included, left - {id}, after)
  {
    forall other
      ensures Count(after, other) == if other in included then Open(NeedsOf(index, other), left - {id}) else 0
    {
      OpenAfter(NeedsOf(index, other), left, id);
    }
  }

  /** Zero open needs is what availability means. */
  lemma ReadyIsAvailable(index: map<Id, Movement>, included: set<Id>, ordered: seq<Id>, indegree: map<Id, int>, id: Id)
    requires Counts(index, included, included - SetOf(ordered), indegree)
    ensures Available(index, included, ordered, id) <==> Ready(included, indegree, SetOf(ordered), id)
  {
    OpenIsZero(NeedsOf(index, id), included - SetOf(ordered));
  }

  lemma SelectedIsEarliest(movements: seq<Movement>, included: set<Id>, ordered: seq<Id>, indegree: map<Id, int>,
                           id: Id)
    requires Counts(ById(movements), included, included - SetOf(ordered), indegree)
    requires Ready(included, indegree, SetOf(ordered), id)
    requires forall i | 0 <= i < Position(movements, id) :: !Ready(included, indegree, SetOf(ordered), movements[i].id)
    ensures Earliest(movements, included, ordered, id)
  {
    hide Counts, Available, Count;
    ReadyIsAvailable(ById(movements), included, ordered, indegree, id);
    forall other | Available(ById(movements), included, ordered, other)
      ensures Position(movements, id) <= Position(movements, other)
    {
      ReadyIsAvailable(ById(movements), included, ordered, indegree, other);
    }
  }

  lemma UnreadyNeedsInside(movements: seq<Movement>, included: set<Id>, ordered: seq<Id>, indegree: map<Id, int>,
                           id: Id)
    requires Counts(ById(movements), included, included - SetOf(ordered), indegree)
    requires id in ById(movements) && id in included - SetOf(ordered)
    requires forall m | m in movements :: !Ready(included, indegree, SetOf(ordered), m.id)
    ensures NeedsInside(ById(movements), included - SetOf(ordered), id)
  {
    assert ById(movements)[id] in movements;
    OpenIsZero(NeedsOf(ById(movements), id), included - SetOf(ordered));
  }

  lemma CycleInLarger(index: map<Id, Movement>, inside: set<Id>, included: set<Id>, cycle: seq<Id>)
    requires IsCycle(index, inside, cycle) && inside <= included
    ensures Cyclic(index, included)
  {
    assert IsCycle(index, included, cycle);
  }

  lemma SingleWalk(index: map<Id, Movement>, inside: set<Id>, id: Id)
    requires id in inside
    ensures IsWalk(index, inside, [id]) && Distinct([id])
  {
  }

  /** A nonempty set whose members all need one another is cyclic. */
  lemma StuckIsCyclic(index: map<Id, Movement>, stuck: set<Id>, included: set<Id>)
    requires stuck != {} && stuck <= included
    requires forall id | id in stuck :: NeedsInside(index, stuck, id)
    ensures Cyclic(index, included)
  {
    hide *;
    var start :| start in stuck;
    SingleWalk(index, stuck, start);
    var cycle := FindCycle(index, stuck, [start]);
    CycleInLarger(index, stuck, included, cycle);
  }

  /** When nothing is ready, the rest of the graph holds a cycle. */
  lemma NothingReady(movements: seq<Movement>, included: set<Id>, ordered: seq<Id>, indegree: map<Id, int>)
    requires Counts(ById(movements), included, included - SetOf(ordered), indegree)
    requires Declared(movements, included) && included - SetOf(ordered) != {}
    requires forall m | m in movements :: !Ready(included, indegree, SetOf(ordered), m.id)
    ensures Cyclic(ById(movements), included)
  {
    hide Counts, Count, NeedsInside, IsWalk, IsCycle, Cyclic, Distinct;
    var index, stuck := ById(movements), included - SetOf(ordered);
    forall id | id in stuck ensures NeedsInside(index, stuck, id) {
      UnreadyNeedsInside(movements, included, ordered, indegree, id);
    }
    StuckIsCyclic(index, stuck, included);
  }

  lemma AppendOrdered(movements: seq<Movement>, included: set<Id>, ordered: seq<Id>, id: Id)
    requires IsStable(movements, included, ordered) && Earliest(movements, included, ordered, id)
    requires Distinct(ordered) && forall other | other in ordered :: other in included
    ensures IsStable(movements, included, ordered + [id]) && Distinct(ordered + [id])
    ensures SetOf(ordered + [id]) == SetOf(ordered) + {id} <= included
  {
    hide Earliest;
    EarliestIsNew(movements, included, ordered, id);
    forall k | 0 <= k < |ordered| + 1
      ensures Earliest(movements, included, (ordered + [id])[..k], (ordered + [id])[k])
    {
      assert (ordered + [id])[..k] == ordered[..k];
      assert k == |ordered| ==> ordered[..k] == ordered;
    }
    FitsInto(ordered + [id], included);
  }

  lemma EarliestIsNew(movements: seq<Movement>, included: set<Id>, ordered: seq<Id>, id: Id)
    requires Earliest(movements, included, ordered, id)
    ensures id in included && id !in ordered
  {
  }

  lemma StableIsOrder(movements: seq<Movement>, included: set<Id>, ordered: seq<Id>)
    requires IsStable(movements, included, ordered) && |ordered| == |included|
    ensures IsOrder(ById(movements), included, ordered)
  {
    forall k | 0 <= k < |ordered| ensures Available(ById(movements), included, ordered[..k], ordered[k]) {
      assert Earliest(movements, included, ordered[..k], ordered[k]);
    }
  }

  /** The search has emitted `ordered` and counts what is left. */
  ghost predicate Progress(movements: seq<Movement>, included: set<Id>, ordered: seq<Id>, indegree: map<Id, int>) {
    && IsStable(movements, included, ordered) && Distinct(ordered) && SetOf(ordered) <= included
    && Counts(ById(movements), included, included - SetOf(ordered), indegree)
  }

  lemma Start(movements: seq<Movement>, included: set<Id>, indegree: map<Id, int>)
    requires Counts(ById(movements), included, included, indegree)
    ensures Progress(movements, included, [], indegree) && SetOf<Id>([]) == {}
  {
    hide Counts;
    assert included - SetOf([]) == included;
  }

  lemma Emit(movements: seq<Movement>, included: set<Id>, ordered: seq<Id>, id: Id,
             before: map<Id, int>, after: map<Id, int>, children: map<Id, seq<Id>>)
    requires Progress(movements, included, ordered, before) && Links(ById(movements), included, included, children)
    requires Ready(included, before, SetOf(ordered), id)
    requires forall i | 0 <= i < Position(movements, id) :: !Ready(included, before, SetOf(ordered), movements[i].id)
    requires forall other :: Count(after, other) == Count(before, other) - multiset(ChildrenOf(children, id))[other]
    ensures Progress(movements, included, ordered + [id], after)
    ensures SetOf(ordered + [id]) == SetOf(ordered) + {id}
  {
    hide Counts, Links, Earliest, IsStable, Count, ChildrenOf;
    SelectedIsEarliest(movements, included, ordered, before, id);
    AppendOrdered(movements, included, ordered, id);
    CountsAfter(ById(movements), included, included - SetOf(ordered), id, before, after, children);
    assert included - SetOf(ordered) - {id} == included - SetOf(ordered + [id]);
  }

  lemma ProgressCount(movements: seq<Movement>, included: set<Id>, ordered: seq<Id>, indegree: map<Id, int>)
    requires Progress(movements, included, ordered, indegree)
    ensures |ordered| <= |included|
    ensures |ordered| == |included| ==>
              IsOrder(ById(movements), included, ordered) && IsStable(movements, included, ordered)
    ensures |ordered| == |included| ==> !Cyclic(ById(movements), included)
    ensures |ordered| < |included| ==> included - SetOf(ordered) != {}
  {
    hide Counts, IsStable, IsOrder, IsCycle;
    FitsInto(ordered, included);
    DistinctSize(ordered);
    if included - SetOf(ordered) == {} {
      assert forall id | id in included :: id in included - SetOf(ordered) || id in SetOf(ordered);
      assert included == SetOf(ordered);
    }
    if |ordered| == |included| {
      StableIsOrder(movements, included, ordered);
      forall cycle | IsCycle(ById(movements), included, cycle) ensures false {
        CyclicHasNoOrder(ById(movements), included, ordered, cycle);
      }
    }
  }

  /** Orders a subset of the movements; fails exactly when an id is undeclared
      or empty, or the subset is cyclic. */
  method StableTopologicalMovementIDs(movements: seq<Movement>, included: set<Id>)
    returns (result: Result<seq<Id>, OrderError>)
    ensures result.Ok? ==>
              IsOrder(ById(movements), included, result.value) && IsStable(movements, included, result.value)
    ensures !Declared(movements, included) ==>
      result.Err? && result.error.AbsentMovement? && result.error.id in included && result.error.id !in ById(movements)
    ensures Declared(movements, included) && (Cyclic(ById(movements), included) || "" in included) ==>
      result == Err(CyclicGraph)
    ensures Declared(movements, included) && !Cyclic(ById(movements), included) && "" !in included ==> result.Ok?
  {
    hide Counts, Links, IsStable, IsOrder, Cyclic, Progress, Count, ChildrenOf, Ready, SetOf, Distinct, Available;
    var index := ById(movements);
    var absent, indegree, children := CountNeeds(index, included);
    if absent.Some? {
      return Err(AbsentMovement(absent.value));
    }
    assert Declared(movements, included);
    var ordered: seq<Id> := [];
    var emitted: set<Id> := {};
    Start(movements, included, indegree);
    ProgressCount(movements, included, ordered, indegree);
    while |ordered| != |included|
      invariant emitted == SetOf(ordered) && |ordered| <= |included| && "" !in emitted
      invariant Progress(movements, included, ordered, indegree)
      decreases |included| - |ordered|
    {
      var selected := FirstReady(movements, included, indegree, emitted);
      if selected == "" {
        ProgressIsCounted(movements, included, ordered, indegree);
        ProgressCount(movements, included, ordered, indegree);
        if "" !in included {
          NothingReady(movements, included, ordered, indegree);
        }
        return Err(CyclicGraph);
      }
      ghost var before := indegree;
      indegree := Release(indegree, ChildrenOf(children, selected));
      Emit(movements, included, ordered, selected, before, indegree, children);
      ordered := ordered + [selected];
      emitted := emitted + {selected};
      ProgressCount(movements, included, ordered, indegree);
    }
    ProgressCount(movements, included, ordered, indegree);
    AllEmitted(movements, included, ordered, indegree);
    return Ok(ordered);
  }

  lemma AllEmitted(movements: seq<Movement>, included: set<Id>, ordered: seq<Id>, indegree: map<Id, int>)
    requires Progress(movements, included, ordered, indegree) && |ordered| == |included|
    ensures SetOf(ordered) == included
  {
    FitsInto(ordered, included);
  }

  lemma ProgressIsCounted(movements: seq<Movement>, included: set<Id>, ordered: seq<Id>, indegree: map<Id, int>)
    requires Progress(movements, included, ordered, indegree)
    ensures Counts(ById(movements), included, included - SetOf(ordered), indegree)
    ensures !Ready(included, indegree, SetOf(ordered), "") || "" in included
  {
  }
}
