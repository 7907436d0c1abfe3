/** The greedy shortest-edit-script search: furthest-reaching paths, the
    search over edit distances, and the walk back through the saved rounds. */
module Myers {

  datatype Operation = Equal | Delete | Insert

  datatype DiffError = LimitExceeded | NotConverged

  datatype DiffResult<+T> = Found(value: T) | Failed(error: DiffError)

  const EDIT_LIMIT: nat := 8192

  /** A comparison problem: `equal` may be asked only about existing items. */
  datatype Problem = Problem(n: nat, m: nat, equal: (nat, nat) --> bool) {
    ghost predicate Valid() {
      forall i: nat, j: nat | i < n && j < m :: equal.requires(i, j)
    }

    /** The loop guard of a snake: false everywhere outside the grid. */
    predicate Matches(x: nat, y: nat)
      requires Valid()
    {
      x < n && y < m && equal(x, y)
    }
  }

  // ---------------------------------------------------------------- scripts

  /** `ops` leads from (x, y) to (toX, toY); the grid is not bounded, but an
      Equal step is possible only where two existing items match. */
  ghost predicate Walk(p: Problem, ops: seq<Operation>, x: nat, y: nat, toX: nat, toY: nat)
    requires p.Valid()
  {
    if ops == [] then x == toX && y == toY
    else match ops[0]
      case Equal => p.Matches(x, y) && Walk(p, ops[1..], x + 1, y + 1, toX, toY)
      case Delete => Walk(p, ops[1..], x + 1, y, toX, toY)
      case Insert => Walk(p, ops[1..], x, y + 1, toX, toY)
  }

  /** A script consumes all n old and all m new items. */
  ghost predicate IsScript(p: Problem, ops: seq<Operation>)
    requires p.Valid()
  {
    Walk(p, ops, 0, 0, p.n, p.m)
  }

  /** Some script stays within the edit limit. */
  ghost predicate WithinLimit(p: Problem)
    requires p.Valid()
  {
    exists ops :: IsScript(p, ops) && Cost(ops) <= 8192
  }

  function Cost(ops: seq<Operation>): nat {
    if ops == [] then 0 else (if ops[0] == Equal then 0 else 1) + Cost(ops[1..])
  }

  ghost predicate IsShortest(p: Problem, ops: seq<Operation>)
    requires p.Valid()
  {
    && IsScript(p, ops)
    && forall other | IsScript(p, other) :: Cost(ops) <= Cost(other)
  }

  // ------------------------------------------- furthest-reaching end points

  ghost predicate OnRound(d: int, k: int) {
    -d <= k <= d && (d + k) % 2 == 0
  }

  /** Slides along matches of diagonal k, from column x. */
  ghost function Snake(p: Problem, x: nat, k: int): (end: nat)
    requires p.Valid() && k <= x
    ensures end >= x && !p.Matches(end, end - k)
    decreases p.n - x
  {
    if p.Matches(x, x - k) then Snake(p, x + 1, k) else x
  }

  ghost predicate FromAbove(p: Problem, d: nat, k: int)
    requires p.Valid() && d > 0 && OnRound(d, k)
    decreases d, 0
  {
    k + d == 0 || (k != d && Furthest(p, d - 1, k - 1) < Furthest(p, d - 1, k + 1))
  }

  /** Column where the last snake of round d on diagonal k begins. */
  ghost function SnakeStart(p: Problem, d: nat, k: int): (x: nat)
    requires p.Valid() && OnRound(d, k)
    ensures x >= k
    decreases d, 1
  {
    if d == 0 then 0
    else if FromAbove(p, d, k) then Furthest(p, d - 1, k + 1)
    else Furthest(p, d - 1, k - 1) + 1
  }

  /** The largest column that d insertions and deletions reach on diagonal k. */
  ghost function Furthest(p: Problem, d: nat, k: int): (x: nat)
    requires p.Valid() && OnRound(d, k)
    ensures x >= k
    decreases d, 2
  {
    Snake(p, SnakeStart(p, d, k), k)
  }

  /** The exit test of the search, on diagonal k of round d. */
  ghost predicate Arrives(p: Problem, d: nat, k: int)
    requires p.Valid() && OnRound(d, k)
  {
    Furthest(p, d, k) >= p.n && Furthest(p, d, k) - k >= p.m
  }

  ghost predicate NoArrivalOn(p: Problem, d: nat)
    requires p.Valid()
  {
    forall k | OnRound(d, k) :: !Arrives(p, d, k)
  }

  ghost predicate NoArrivalBefore(p: Problem, d: nat)
    requires p.Valid()
  {
    forall c: nat | c < d :: NoArrivalOn(p, c)
  }

  // ------------------------------------------------------------- maximality

  ghost predicate Within(p: Problem, d: nat, x: nat, y: nat)
    requires p.Valid()
  {
    OnRound(d, x - y) && x <= Furthest(p, d, x - y)
  }

  lemma EditStaysWithin(p: Problem, d: nat, x: nat, y: nat)
    requires p.Valid() && Within(p, d, x, y)
    ensures Within(p, d + 1, x + 1, y) && Within(p, d + 1, x, y + 1)
  {
    var k := x - y;
    hide Snake;
    assert OnRound(d + 1, k + 1) && OnRound(d + 1, k - 1);
    assert SnakeStart(p, d + 1, k + 1) > Furthest(p, d, k);
    assert SnakeStart(p, d + 1, k - 1) >= Furthest(p, d, k);
  }

  lemma MatchStaysWithin(p: Problem, d: nat, x: nat, y: nat)
    requires p.Valid() && Within(p, d, x, y) && p.Matches(x, y)
    ensures Within(p, d, x + 1, y + 1)
  {
    assert (x + 1) - (y + 1) == x - y;
    assert x != Furthest(p, d, x - y);
  }

  /** No walk gets past the furthest-reaching end points. */
  lemma {:induction false} WalkStaysWithin(p: Problem, ops: seq<Operation>, d: nat, x: nat, y: nat, toX: nat, toY: nat)
    requires p.Valid() && Within(p, d, x, y) && Walk(p, ops, x, y, toX, toY)
    ensures Within(p, d + Cost(ops), toX, toY)
    decreases |ops|
  {
    hide Furthest, SnakeStart, FromAbove, Snake;
    if ops != [] {
      match ops[0]
      case Equal =>
        MatchStaysWithin(p, d, x, y);
        WalkStaysWithin(p, ops[1..], d, x + 1, y + 1, toX, toY);
      case Delete =>
        EditStaysWithin(p, d, x, y);
        WalkStaysWithin(p, ops[1..], d + 1, x + 1, y, toX, toY);
      case Insert =>
        EditStaysWithin(p, d, x, y);
        WalkStaysWithin(p, ops[1..], d + 1, x, y + 1, toX, toY);
    }
  }

  /** A script of cost c makes the exit test true in round c. */
  lemma ScriptArrives(p: Problem, ops: seq<Operation>)
    requires p.Valid() && IsScript(p, ops)
    ensures OnRound(Cost(ops), p.n - p.m) && Arrives(p, Cost(ops), p.n - p.m)
    ensures !NoArrivalOn(p, Cost(ops))
  {
    assert Within(p, 0, 0, 0);
    WalkStaysWithin(p, ops, 0, 0, 0, p.n, p.m);
  }

  lemma NoShorterScript(p: Problem, d: nat)
    requires p.Valid() && NoArrivalBefore(p, d)
    ensures forall ops | IsScript(p, ops) :: Cost(ops) >= d
  {
    forall ops | IsScript(p, ops) ensures Cost(ops) >= d {
      ScriptArrives(p, ops);
    }
  }

  // ------------------------------------------------ walks that leave the grid

  function Min(a: int, b: int): int { if a <= b then a else b }

  /** Drops the steps a walk takes beyond column n or row m. */
  ghost function Clip(p: Problem, ops: seq<Operation>, x: nat, y: nat): (inside: seq<Operation>)
  {
    if ops == [] then []
    else match ops[0]
      case Equal => [Equal] + Clip(p, ops[1..], x + 1, y + 1)
      case Delete => (if x < p.n then [Delete] else []) + Clip(p, ops[1..], x + 1, y)
      case Insert => (if y < p.m then [Insert] else []) + Clip(p, ops[1..], x, y + 1)
  }

  lemma {:induction false} ClipStaysInside(p: Problem, ops: seq<Operation>, x: nat, y: nat, toX: nat, toY: nat)
    requires p.Valid() && Walk(p, ops, x, y, toX, toY)
    ensures Walk(p, Clip(p, ops, x, y), Min(x, p.n), Min(y, p.m), Min(toX, p.n), Min(toY, p.m))
    ensures Cost(ops) - Cost(Clip(p, ops, x, y))
         == (toX - Min(toX, p.n)) - (x - Min(x, p.n)) + (toY - Min(toY, p.m)) - (y - Min(y, p.m))
    decreases |ops|
  {
    if ops != [] {
      var rest := ops[1..];
      match ops[0]
      case Equal =>
        ClipStaysInside(p, rest, x + 1, y + 1, toX, toY);
        assert Clip(p, ops, x, y)[1..] == Clip(p, rest, x + 1, y + 1);
      case Delete =>
        ClipStaysInside(p, rest, x + 1, y, toX, toY);
        if x < p.n {
          assert Clip(p, ops, x, y)[1..] == Clip(p, rest, x + 1, y);
        } else {
          assert Clip(p, ops, x, y) == Clip(p, rest, x + 1, y);
        }
      case Insert =>
        ClipStaysInside(p, rest, x, y + 1, toX, toY);
        if y < p.m {
          assert Clip(p, ops, x, y)[1..] == Clip(p, rest, x, y + 1);
        } else {
          assert Clip(p, ops, x, y) == Clip(p, rest, x, y + 1);
        }
    }
  }

  /** The exit test first becomes true exactly at the corner (n, m), although
      the search lets x and y run past it. */
  lemma FirstArrivalIsCorner(p: Problem, ops: seq<Operation>, x: nat, y: nat)
    requires p.Valid() && Walk(p, ops, 0, 0, x, y) && x >= p.n && y >= p.m
    requires NoArrivalBefore(p, Cost(ops))
    ensures x == p.n && y == p.m
  {
    ClipStaysInside(p, ops, 0, 0, x, y);
    ScriptArrives(p, Clip(p, ops, 0, 0));
  }

  /** Deleting everything and inserting everything is always a script. */
  lemma {:induction false} TrivialScript(p: Problem, x: nat, y: nat) returns (ops: seq<Operation>)
    requires p.Valid() && x <= p.n && y <= p.m
    ensures Walk(p, ops, x, y, p.n, p.m) && Cost(ops) == p.n - x + p.m - y
    decreases p.n - x + p.m - y
  {
    if x < p.n {
      var rest := TrivialScript(p, x + 1, y);
      ops := [Delete] + rest;
      assert ops[1..] == rest;
    } else if y < p.m {
      var rest := TrivialScript(p, x, y + 1);
      ops := [Insert] + rest;
      assert ops[1..] == rest;
    } else {
      ops := [];
    }
  }

  // --------------------------------------------------------- the saved trace

  function Lookup(frontier: map<int, nat>, k: int): nat {
    if k in frontier then frontier[k] else 0
  }

  function TraceValue(snapshot: seq<nat>, d: nat, k: int): nat
    requires 0 <= k + d + 1 < |snapshot|
  {
    snapshot[k + d + 1]
  }

  /** What round d reads of its predecessor; round 0 reads the seed at 1. */
  ghost predicate Records(p: Problem, snapshot: seq<nat>, d: nat)
    requires p.Valid()
  {
    && |snapshot| == 2 * d + 3
    && (d == 0 ==> TraceValue(snapshot, 0, 1) == 0)
    && (d > 0 ==> forall k | OnRound(d - 1, k) :: TraceValue(snapshot, d, k) == Furthest(p, d - 1, k))
  }

  lemma PrependWalk(p: Problem, op: Operation, ops: seq<Operation>, x: nat, y: nat, toX: nat, toY: nat)
    requires p.Valid()
    requires match op
             case Equal => p.Matches(x, y) && Walk(p, ops, x + 1, y + 1, toX, toY)
             case Delete => Walk(p, ops, x + 1, y, toX, toY)
             case Insert => Walk(p, ops, x, y + 1, toX, toY)
    ensures Walk(p, [op] + ops, x, y, toX, toY)
    ensures Cost([op] + ops) == Cost(ops) + if op == Equal then 0 else 1
  {
    assert ([op] + ops)[1..] == ops;
  }

  /** Every column between the start and the end of a snake is a match. */
  lemma {:induction false} SnakeMatches(p: Problem, from: nat, x: nat, k: int)
    requires p.Valid() && k <= from <= x < Snake(p, from, k)
    ensures p.Matches(x, x - k)
    decreases x - from
  {
    if from < x {
      SnakeMatches(p, from + 1, x, k);
    }
  }

  function Reversed<T>(s: seq<T>): (r: seq<T>)
    ensures |r| == |s| && forall i | 0 <= i < |s| :: r[i] == s[|s| - 1 - i]
  {
    seq(|s|, i requires 0 <= i < |s| => s[|s| - 1 - i])
  }

  method Reverse<T>(items: seq<T>) returns (operations: seq<T>)
    ensures operations == Reversed(items)
  {
    operations := items;
    var left, right := 0, |items| - 1;
    while left < right
      invariant 0 <= left <= right + 2 && left + right == |items| - 1
      invariant |operations| == |items|
      invariant forall i | 0 <= i < left :: operations[i] == items[|items| - 1 - i]
      invariant forall i | right < i < |items| :: operations[i] == items[|items| - 1 - i]
      invariant forall i | left <= i <= right :: operations[i] == items[i]
    {
      operations := operations[left := operations[right]][right := operations[left]];
      left, right := left + 1, right - 1;
    }
  }

  lemma ReversedAppend<T>(s: seq<T>, item: T)
    ensures Reversed(s + [item]) == [item] + Reversed(s)
  {
  }

  /** Chooses the diagonal the last edit of round d came from. */
  method PreviousDiagonal(ghost p: Problem, snapshot: seq<nat>, distance: nat, diagonal: int) returns (previous: int)
    requires p.Valid() && OnRound(distance, diagonal) && Records(p, snapshot, distance)
    ensures -(distance as int) - 1 <= previous <= distance + 1
    ensures distance == 0 ==> previous == 1
    ensures distance > 0 ==> OnRound(distance - 1, previous)
    ensures distance > 0 ==> TraceValue(snapshot, distance, previous) == Furthest(p, distance - 1, previous)
    ensures distance > 0 && previous > diagonal ==>
      previous == diagonal + 1 && SnakeStart(p, distance, diagonal) == Furthest(p, distance - 1, previous)
    ensures distance == 0 ==> SnakeStart(p, distance, diagonal) == 0
    ensures Furthest(p, distance, diagonal) == Snake(p, SnakeStart(p, distance, diagonal), diagonal)
    ensures distance > 0 && previous <= diagonal ==>
      previous == diagonal - 1 && SnakeStart(p, distance, diagonal) == Furthest(p, distance - 1, previous) + 1
  {
    if diagonal == -(distance as int)
       || (diagonal != distance
           && TraceValue(snapshot, distance, diagonal - 1) < TraceValue(snapshot, distance, diagonal + 1)) {
      previous := diagonal + 1;
    } else {
      previous := diagonal - 1;
    }
  }

  /** The operations collected so far, read backwards, lead from (x, y) to the end. */
  ghost predicate Collected(p: Problem, reverse: seq<Operation>, x: nat, y: nat, endX: nat, endY: nat, cost: nat)
    requires p.Valid()
  {
    Walk(p, Reversed(reverse), x, y, endX, endY) && Cost(Reversed(reverse)) == cost
  }

  lemma Collect(p: Problem, reverse: seq<Operation>, op: Operation, x: nat, y: nat, endX: nat, endY: nat, cost: nat)
    requires p.Valid()
    requires match op
             case Equal => p.Matches(x, y) && Collected(p, reverse, x + 1, y + 1, endX, endY, cost)
             case Delete => Collected(p, reverse, x + 1, y, endX, endY, cost)
             case Insert => Collected(p, reverse, x, y + 1, endX, endY, cost)
    ensures Collected(p, reverse + [op], x, y, endX, endY, if op == Equal then cost else cost + 1)
  {
    PrependWalk(p, op, Reversed(reverse), x, y, endX, endY);
    ReversedAppend(reverse, op);
  }

  /** Steps back along a snake, to the column where it started. */
  method RetraceSnake(ghost p: Problem, tail: seq<Operation>, footX: nat, footY: nat, previousX: nat, previousY: int,
                      ghost start: nat, ghost endX: nat, ghost endY: nat, ghost cost: nat)
    returns (reverse: seq<Operation>, x: nat, y: nat)
    requires p.Valid() && footX as int - footY <= start && footX == Snake(p, start, footX as int - footY)
    requires Collected(p, tail, footX, footY, endX, endY, cost)
    requires var startY := start + footY - footX;
      previousX <= start && previousY <= startY && (previousX == start || previousY == startY)
    ensures x == start && y == start + footY - footX
    ensures Collected(p, reverse, x, y, endX, endY, cost)
  {
    reverse, x, y := tail, footX, footY;
    ghost var diagonal: int := footX as int - footY;
    while x > previousX && y > previousY
      invariant start <= x <= footX && x as int - y == diagonal
      invariant Collected(p, reverse, x, y, endX, endY, cost)
    {
      SnakeMatches(p, start, x - 1, diagonal);
      Collect(p, reverse, Equal, x - 1, y - 1, endX, endY, cost);
      reverse := reverse + [Equal];
      x, y := x - 1, y - 1;
    }
  }

  /** Undoes one round: its last snake and, except in round 0, its edit. */
  method BacktrackRound(ghost p: Problem, snapshot: seq<nat>, tail: seq<Operation>, distance: nat, footX: nat,
                        footY: nat,
                        ghost endX: nat, ghost endY: nat, ghost cost: nat)
    returns (reverse: seq<Operation>, x: nat, y: nat)
    requires p.Valid() && Records(p, snapshot, distance)
    requires OnRound(distance, footX as int - footY) && footX == Furthest(p, distance, footX as int - footY)
    requires Collected(p, tail, footX, footY, endX, endY, cost)
    ensures distance == 0 ==> x == 0 && y == 0 && Collected(p, reverse, 0, 0, endX, endY, cost)
    ensures distance > 0 ==> OnRound(distance - 1, x as int - y) && x == Furthest(p, distance - 1, x as int - y)
    ensures distance > 0 ==> Collected(p, reverse, x, y, endX, endY, cost + 1)
  {
    hide Furthest, SnakeStart, FromAbove, Walk, Snake;
    var previousDiagonal := PreviousDiagonal(p, snapshot, distance, footX as int - footY);
    var previousX := TraceValue(snapshot, distance, previousDiagonal);
    var previousY := previousX as int - previousDiagonal;
    ghost var start := SnakeStart(p, distance, footX as int - footY);
    reverse, x, y := RetraceSnake(p, tail, footX, footY, previousX, previousY, start, endX, endY, cost);
    if distance == 0 {
      return;
    }
    if x == previousX {
      Collect(p, reverse, Insert, x, y - 1, endX, endY, cost);
      reverse := reverse + [Insert];
      y := y - 1;
    } else {
      Collect(p, reverse, Delete, x - 1, y, endX, endY, cost);
      reverse := reverse + [Delete];
      x := x - 1;
    }
  }

  /** Rebuilds, from the saved rounds, a walk that ends at (endX, endY). */
  method BacktrackDiff(ghost p: Problem, trace: seq<seq<nat>>, endX: nat, endY: nat)
    returns (operations: seq<Operation>)
    requires p.Valid() && |trace| > 0
    requires forall d | 0 <= d < |trace| :: Records(p, trace[d], d)
    requires OnRound(|trace| - 1, endX as int - endY)
    requires endX == Furthest(p, |trace| - 1, endX as int - endY)
    ensures Walk(p, operations, 0, 0, endX, endY)
    ensures Cost(operations) == |trace| - 1
  {
    hide Furthest, SnakeStart, FromAbove, Snake;
    var reverse: seq<Operation> := [];
    var x, y := endX, endY;
    assert Collected(p, reverse, x, y, endX, endY, 0);
    for distance := |trace| downto 0
      invariant distance > 0 ==> OnRound(distance - 1, x as int - y) && x == Furthest(p, distance - 1, x as int - y)
      invariant distance > 0 ==> Collected(p, reverse, x, y, endX, endY, |trace| - distance)
      invariant distance == 0 ==> Collected(p, reverse, 0, 0, endX, endY, |trace| - 1)
    {
      reverse, x, y := BacktrackRound(p, trace[distance], reverse, distance, x, y, endX, endY, |trace| - 1 - distance);
    }
    operations := Reverse(reverse);
  }

  /** The frontier holds the end points of round d, on diagonals below `next`. */
  ghost predicate Holds(p: Problem, frontier: map<int, nat>, d: nat, next: int)
    requires p.Valid()
  {
    forall k | OnRound(d, k) && k < next :: Lookup(frontier, k) == Furthest(p, d, k)
  }

  /** What the frontier must hold before round d may start. */
  ghost predicate Seeded(p: Problem, frontier: map<int, nat>, d: nat)
    requires p.Valid()
  {
    if d == 0 then Lookup(frontier, 1) == 0 else Holds(p, frontier, d - 1, d)
  }

  lemma InitialFrontier(p: Problem)
    requires p.Valid()
    ensures Seeded(p, map[1 := 0], 0)
  {
  }

  lemma StoreEndPoint(p: Problem, frontier: map<int, nat>, d: nat, k: int, x: nat)
    requires p.Valid() && OnRound(d, k) && x == Furthest(p, d, k)
    requires Seeded(p, frontier, d) && Holds(p, frontier, d, k)
    ensures Seeded(p, frontier[k := x], d) && Holds(p, frontier[k := x], d, k + 2)
  {
    hide Furthest, SnakeStart, FromAbove, Snake;
    ParityOfRounds(d, k);
    assert forall i :: i != k ==> Lookup(frontier[k := x], i) == Lookup(frontier, i);
  }

  /** Round d writes only diagonals that neither it nor round d - 1 has yet to read. */
  lemma ParityOfRounds(d: nat, k: int)
    requires OnRound(d, k)
    ensures !OnRound(d - 1, k) && (d == 0 ==> k != 1)
    ensures forall i | OnRound(d, i) && k < i :: i >= k + 2
  {
  }

  /** Takes the edit of round d that leads furthest on diagonal k. */
  method TakeEdit(ghost p: Problem, frontier: map<int, nat>, distance: nat, diagonal: int) returns (x: nat)
    requires p.Valid() && OnRound(distance, diagonal) && Seeded(p, frontier, distance)
    ensures x == SnakeStart(p, distance, diagonal)
    ensures Furthest(p, distance, diagonal) == Snake(p, x, diagonal)
  {
    if diagonal == -(distance as int)
       || (diagonal != distance && Lookup(frontier, diagonal - 1) < Lookup(frontier, diagonal + 1)) {
      x := Lookup(frontier, diagonal + 1);
    } else {
      x := Lookup(frontier, diagonal - 1) + 1;
    }
  }

  /** Computes one diagonal of round d: takes an edit, then slides. */
  method Advance(p: Problem, frontier: map<int, nat>, distance: nat, diagonal: int) returns (x: nat, y: nat)
    requires p.Valid() && OnRound(distance, diagonal) && Seeded(p, frontier, distance)
    ensures x == Furthest(p, distance, diagonal) && y as int == x - diagonal
  {
    hide Furthest, SnakeStart, FromAbove;
    x := TakeEdit(p, frontier, distance, diagonal);
    y := x - diagonal;
    while x < p.n && y < p.m && p.equal(x, y)
      invariant x as int - y == diagonal
      invariant Snake(p, x, diagonal) == Furthest(p, distance, diagonal)
      decreases p.n - x
    {
      x, y := x + 1, y + 1;
    }
  }

  function Snapshot(frontier: map<int, nat>, distance: nat): (snapshot: seq<nat>) {
    seq<nat>(2 * distance + 3, i requires 0 <= i < 2 * distance + 3 => Lookup(frontier, i - distance - 1))
  }

  lemma SnapshotRecords(p: Problem, frontier: map<int, nat>, d: nat)
    requires p.Valid() && Seeded(p, frontier, d)
    ensures Records(p, Snapshot(frontier, d), d)
  {
  }

  /** Finds a shortest script, or fails when the shortest one is too long. */
  method MyersOperations(p: Problem) returns (result: DiffResult<seq<Operation>>)
    requires p.Valid()
    ensures result.Found? ==> IsShortest(p, result.value)
    ensures result.Found? <==> WithinLimit(p)
    ensures result.Failed? ==> result.error == LimitExceeded
  {
    hide Furthest, SnakeStart, FromAbove, Walk, Snake, Lookup, Snapshot, Records;
    var maximum := p.n + p.m;
    var frontier: map<int, nat> := map[1 := 0];
    InitialFrontier(p);
    var trace: seq<seq<nat>> := [];
    var distance: nat := 0;
    while distance <= maximum
      invariant distance <= maximum + 1 && distance <= EDIT_LIMIT + 1
      invariant |trace| == distance
      invariant forall d | 0 <= d < |trace| :: Records(p, trace[d], d)
      invariant Seeded(p, frontier, distance)
      invariant NoArrivalBefore(p, distance)
    {
      NoShorterScript(p, distance);
      if distance > EDIT_LIMIT {
        return Failed(LimitExceeded);
      }
      SnapshotRecords(p, frontier, distance);
      trace := trace + [Snapshot(frontier, distance)];
      var diagonal := -(distance as int);
      while diagonal <= distance
        invariant -(distance as int) <= diagonal <= distance + 2 && (distance + diagonal) % 2 == 0
        invariant Seeded(p, frontier, distance)
        invariant Holds(p, frontier, distance, diagonal)
        invariant forall k | OnRound(distance, k) && k < diagonal :: !Arrives(p, distance, k)
      {
        var x, y := Advance(p, frontier, distance, diagonal);
        StoreEndPoint(p, frontier, distance, diagonal, x);
        frontier := frontier[diagonal := x];
        if x >= p.n && y >= p.m {
          var operations := BacktrackDiff(p, trace, x, y);
          FirstArrivalIsCorner(p, operations, x, y);
          return Found(operations);
        }
        diagonal := diagonal + 2;
      }
      distance := distance + 1;
    }
    ghost var all := TrivialScript(p, 0, 0);
    NoShorterScript(p, distance);
    return Failed(NotConverged);
  }
}
