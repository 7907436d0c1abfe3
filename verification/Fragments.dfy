/** Splitting decisions at region boundaries and merging the fragments back.
    Region k of a document is the bytes from bounds[k] to bounds[k + 1]. */
module Fragments {
  import opened Markers

  // -------------------------------------------------------------------- inputs

  /** Increasing cuts from the start to the end, each region with a payload. */
  ghost predicate Cut(document: string, bounds: seq<nat>) {
    && bounds != [] && bounds[0] == 0 && bounds[|bounds| - 1] == |document|
    && (forall k | 0 <= k < |bounds| - 1 :: bounds[k] < bounds[k + 1])
    && (forall k | 0 <= k < |bounds| - 1 :: 0 <= bounds[k] <= bounds[k + 1] <= |document| ==>
      !Blank(document[bounds[k]..bounds[k + 1]]))
  }

  ghost predicate Inside(document: string, d: Classification) {
    0 <= d.startByte < d.endByte <= |document|
  }

  ghost predicate HasPayload(document: string, d: Classification) {
    Inside(document, d) && !Blank(document[d.startByte..d.endByte])
  }

  predicate SameLabel(a: Classification, b: Classification) {
    a.kind == b.kind && a.markerId == b.markerId
  }

  /** `a` ends before `b` starts, and merging would not join them. */
  ghost predicate Apart(a: Classification, b: Classification) {
    a.endByte <= b.startByte && !(a.endByte == b.startByte && SameLabel(a, b))
  }

  ghost predicate AllApart(ds: seq<Classification>) {
    forall i, j | 0 <= i < j < |ds| :: Apart(ds[i], ds[j])
  }

  /** Sorted, disjoint, merged decisions, each with a payload. */
  ghost predicate Decided(document: string, ds: seq<Classification>) {
    AllApart(ds) && forall d | d in ds :: HasPayload(document, d)
  }

  // ----------------------------------------------------------------- fragments

  function Clip(d: Classification, lo: int, hi: int): Classification {
    d.(startByte := if d.startByte < lo then lo else d.startByte, endByte := if d.endByte > hi then hi else d.endByte)
  }

  /** The fragment of a decision inside a region, unless it is only whitespace. */
  function Piece(document: string, d: Classification, lo: nat, hi: nat): (piece: seq<Classification>)
    requires lo <= hi <= |document|
    ensures |piece| <= 1
  {
    var c := Clip(d, lo, hi);
    if c.startByte < c.endByte && !Blank(document[c.startByte..c.endByte]) then [c] else []
  }

  /** The fragments that one region keeps, in order. */
  function Bucket(document: string, ds: seq<Classification>, lo: nat, hi: nat): seq<Classification>
    requires lo <= hi <= |document|
  {
    if ds == [] then [] else Bucket(document, ds[..|ds| - 1], lo, hi) + Piece(document, ds[|ds| - 1], lo, hi)
  }

  ghost predicate Bounds(document: string, bounds: seq<nat>) {
    && (forall k | 0 <= k < |bounds| :: bounds[k] <= |document|)
    && (forall k | 0 <= k < |bounds| - 1 :: bounds[k] < bounds[k + 1])
  }

  /** The fragments of all regions from region k on, region by region. */
  ghost function Flat(document: string, ds: seq<Classification>, bounds: seq<nat>, k: nat): seq<Classification>
    requires Bounds(document, bounds)
    decreases |bounds| - k
  {
    if k + 1 >= |bounds| then []
    else Bucket(document, ds, bounds[k], bounds[k + 1]) + Flat(document, ds, bounds, k + 1)
  }

  lemma {:induction false} CutHasBounds(document: string, bounds: seq<nat>)
    requires Cut(document, bounds)
    ensures Bounds(document, bounds)
    ensures forall i, j | 0 <= i <= j < |bounds| :: bounds[i] <= bounds[j]
  {
    forall i, j | 0 <= i <= j < |bounds| ensures bounds[i] <= bounds[j] {
      BoundsAscend(bounds, i, j);
    }
  }

  lemma {:induction false} BoundsAscend(bounds: seq<nat>, i: nat, j: nat)
    requires i <= j < |bounds| && forall k | 0 <= k < |bounds| - 1 :: bounds[k] < bounds[k + 1]
    ensures bounds[i] <= bounds[j]
    decreases j
  {
    if i < j {
      BoundsAscend(bounds, i, j - 1);
    }
  }

  // ------------------------------------------------- region order, decision order

  lemma {:induction false} NothingBefore(document: string, ds: seq<Classification>, lo: nat, hi: nat)
    requires lo <= hi <= |document| && forall d | d in ds :: d.endByte <= lo
    ensures Bucket(document, ds, lo, hi) == []
    decreases |ds|
  {
    if ds != [] {
      assert ds[|ds| - 1] in ds;
      NothingBefore(document, ds[..|ds| - 1], lo, hi);
    }
  }

  lemma {:induction false} NothingLeft(document: string, ds: seq<Classification>, bounds: seq<nat>, k: nat)
    requires Bounds(document, bounds) && k < |bounds| && forall d | d in ds :: d.endByte <= bounds[k]
    ensures Flat(document, ds, bounds, k) == []
    decreases |bounds| - k
  {
    if k + 1 < |bounds| {
      NothingBefore(document, ds, bounds[k], bounds[k + 1]);
      NothingLeft(document, ds, bounds, k + 1);
    }
  }

  lemma OneBucket(document: string, d: Classification, lo: nat, hi: nat)
    requires lo <= hi <= |document|
    ensures Bucket(document, [d], lo, hi) == Piece(document, d, lo, hi)
  {
    assert [d][..0] == [];
  }

  /** Listing fragments region by region lists them decision by decision. */
  lemma {:induction false} FlatSplits(document: string, ds: seq<Classification>, d: Classification, bounds: seq<nat>,
                                      k: nat)
    requires Bounds(document, bounds) && forall c | c in ds :: c.endByte <= d.startByte
    ensures Flat(document, ds + [d], bounds, k) == Flat(document, ds, bounds, k) + Flat(document, [d], bounds, k)
    decreases |bounds| - k
  {
    if k + 1 < |bounds| {
      var lo, hi := bounds[k], bounds[k + 1];
      FlatSplits(document, ds, d, bounds, k + 1);
      BucketSplits(document, ds, d, lo, hi);
      OneBucket(document, d, lo, hi);
      if hi <= d.startByte {
        assert Piece(document, d, lo, hi) == [];
      } else {
        NothingLeft(document, ds, bounds, k + 1);
      }
      hide Flat, Bucket, Piece;
      Interleave(Bucket(document, ds, lo, hi), Piece(document, d, lo, hi),
                 Flat(document, ds, bounds, k + 1), Flat(document, [d], bounds, k + 1));
    }
  }

  lemma BucketSplits(document: string, ds: seq<Classification>, d: Classification, lo: nat, hi: nat)
    requires lo <= hi <= |document|
    ensures Bucket(document, ds + [d], lo, hi) == Bucket(document, ds, lo, hi) + Piece(document, d, lo, hi)
  {
    assert (ds + [d])[..|ds|] == ds;
  }

  lemma Interleave<T>(a: seq<T>, b: seq<T>, c: seq<T>, d: seq<T>)
    requires b == [] || c == []
    ensures (a + b) + (c + d) == (a + c) + (b + d)
  {
  }

  // ------------------------------------------------------------------- merging

  /** Extends the last entry when the next one continues it. */
  function Join(merged: seq<Classification>, c: Classification): seq<Classification> {
    if merged != [] && merged[|merged| - 1].endByte == c.startByte && SameLabel(merged[|merged| - 1], c)
    then merged[..|merged| - 1] + [merged[|merged| - 1].(endByte := c.endByte)]
    else merged + [c]
  }

  function JoinAll(merged: seq<Classification>, cs: seq<Classification>): seq<Classification>
    decreases |cs|
  {
    if cs == [] then merged else JoinAll(Join(merged, cs[0]), cs[1..])
  }

  lemma {:induction false} JoinAllSplits(merged: seq<Classification>, a: seq<Classification>, b: seq<Classification>)
    ensures JoinAll(merged, a + b) == JoinAll(JoinAll(merged, a), b)
    decreases |a|
  {
    if a == [] {
      assert a + b == b;
    } else {
      assert (a + b)[1..] == a[1..] + b;
      JoinAllSplits(Join(merged, a[0]), a[1..], b);
    }
  }

  // ------------------------------------------------------------ trimmed decisions

  /** Where a decision that reaches region k really ends: a blank part in its
      last region is dropped. */
  ghost function TailEnd(document: string, d: Classification, bounds: seq<nat>, k: nat): int
    requires Bounds(document, bounds) && k < |bounds| && bounds[k] <= d.endByte <= |document|
    decreases |bounds| - k
  {
    if bounds[k] == d.endByte || k + 1 == |bounds| then bounds[k]
    else if bounds[k + 1] <= d.endByte then TailEnd(document, d, bounds, k + 1)
    else if Blank(document[bounds[k]..d.endByte]) then bounds[k] else d.endByte
  }

  /** The region, from k on, where a position lies. */
  ghost function RegionOf(document: string, bounds: seq<nat>, position: int, k: nat): (j: nat)
    requires Cut(document, bounds) && k < |bounds| - 1 && bounds[k] <= position < |document|
    ensures k <= j < |bounds| - 1 && bounds[j] <= position < bounds[j + 1]
    decreases |bounds| - k
  {
    if position < bounds[k + 1] then k else RegionOf(document, bounds, position, k + 1)
  }

  /** A decision without a blank start or end beside a region boundary. */
  ghost function Trim(document: string, d: Classification, bounds: seq<nat>): Classification
    requires Cut(document, bounds) && Inside(document, d)
  {
    CutHasBounds(document, bounds);
    assert 1 < |bounds|;
    var j := RegionOf(document, bounds, d.startByte, 0);
    var hi := bounds[j + 1];
    if d.endByte <= hi then d
    else
      d.(startByte := if Blank(document[d.startByte..hi]) then hi else d.startByte,
         endByte := TailEnd(document, d, bounds, j + 1))
  }

  ghost function TrimAll(document: string, ds: seq<Classification>, bounds: seq<nat>): (out: seq<Classification>)
    requires Cut(document, bounds) && forall d | d in ds :: Inside(document, d)
    ensures |out| == |ds| && forall i | 0 <= i < |ds| :: out[i] == Trim(document, ds[i], bounds)
  {
    seq(|ds|, i requires 0 <= i < |ds| => Trim(document, ds[i], bounds))
  }

  lemma {:induction false} TailEndIs(document: string, d: Classification, bounds: seq<nat>, k: nat)
    requires Cut(document, bounds) && Bounds(document, bounds) && k < |bounds| && bounds[k] <= d.endByte <= |document|
    ensures bounds[k] <= TailEnd(document, d, bounds, k) <= d.endByte
    ensures Blank(document[TailEnd(document, d, bounds, k)..d.endByte])
    decreases |bounds| - k
  {
    if bounds[k] == d.endByte || k + 1 == |bounds| {
      assert document[bounds[k]..d.endByte] == "";
    } else if bounds[k + 1] <= d.endByte {
      TailEndIs(document, d, bounds, k + 1);
    } else if !Blank(document[bounds[k]..d.endByte]) {
      assert document[d.endByte..d.endByte] == "";
    }
  }

  lemma BlankParts(document: string, from: int, middle: int, to: int)
    requires 0 <= from <= middle <= to <= |document|
    ensures Blank(document[from..to]) <==> Blank(document[from..middle]) && Blank(document[middle..to])
  {
    var whole, front, back := document[from..to], document[from..middle], document[middle..to];
    assert whole == front + back;
    if Blank(whole) {
      assert forall i | 0 <= i < |front| :: front[i] == whole[i];
      assert forall i | 0 <= i < |back| :: back[i] == whole[|front| + i];
    }
  }

  /** Only blank ends are trimmed: the payload and the label stay. */
  lemma TrimKeepsPayload(document: string, d: Classification, bounds: seq<nat>)
    requires Cut(document, bounds) && HasPayload(document, d)
    ensures var t := Trim(document, d, bounds);
      && SameLabel(t, d) && d.startByte <= t.startByte < t.endByte <= d.endByte
      && Blank(document[d.startByte..t.startByte]) && Blank(document[t.endByte..d.endByte])
      && HasPayload(document, t)
  {
    hide Blank;
    CutHasBounds(document, bounds);
    var j := RegionOf(document, bounds, d.startByte, 0);
    var hi := bounds[j + 1];
    NothingIsBlank(document, d.startByte);
    NothingIsBlank(document, d.endByte);
    if d.endByte > hi {
      TailEndIs(document, d, bounds, j + 1);
      var end := TailEnd(document, d, bounds, j + 1);
      BlankParts(document, d.startByte, hi, d.endByte);
      BlankParts(document, hi, end, d.endByte);
      BlankParts(document, d.startByte, hi, end);
      NothingIsBlank(document, hi);
    }
  }

  lemma NothingIsBlank(document: string, at: int)
    requires 0 <= at <= |document|
    ensures Blank(document[at..at])
  {
  }

  // ------------------------------------------------------- merging one decision

  lemma {:induction false} PiecesBefore(document: string, d: Classification, bounds: seq<nat>, k: nat, j: nat)
    requires Cut(document, bounds) && Bounds(document, bounds) && k <= j < |bounds| && bounds[j] <= d.startByte
    ensures Flat(document, [d], bounds, k) == Flat(document, [d], bounds, j)
    decreases j - k
  {
    if k < j {
      CutHasBounds(document, bounds);
      OneBucket(document, d, bounds[k], bounds[k + 1]);
      PiecesBefore(document, d, bounds, k + 1, j);
    }
  }

  lemma FlatStep(document: string, d: Classification, bounds: seq<nat>, k: nat)
    requires Bounds(document, bounds) && k + 1 < |bounds|
    ensures Flat(document, [d], bounds, k)
         == Piece(document, d, bounds[k], bounds[k + 1]) + Flat(document, [d], bounds, k + 1)
  {
    OneBucket(document, d, bounds[k], bounds[k + 1]);
  }

  /** The fragments behind a region boundary extend an entry that reaches it. */
  lemma {:induction false} TailJoins(document: string, d: Classification, bounds: seq<nat>, k: nat,
                                     m: seq<Classification>, x: Classification)
    requires Cut(document, bounds) && Bounds(document, bounds) && k < |bounds| &&
               d.startByte <= bounds[k] <= d.endByte <= |document|
    requires SameLabel(x, d) && x.endByte == bounds[k]
    ensures JoinAll(m + [x], Flat(document, [d], bounds, k)) == m + [x.(endByte := TailEnd(document, d, bounds, k))]
    decreases |bounds| - k
  {
    if bounds[k] == d.endByte || k + 1 == |bounds| {
      NothingLeft(document, [d], bounds, k);
    } else {
      FlatStep(document, d, bounds, k);
      var piece, rest := Piece(document, d, bounds[k], bounds[k + 1]), Flat(document, [d], bounds, k + 1);
      JoinAllSplits(m + [x], piece, rest);
      if bounds[k + 1] <= d.endByte {
        var y := x.(endByte := bounds[k + 1]);
        JoinOne(m, x, d.(startByte := bounds[k], endByte := bounds[k + 1]));
        TailJoins(document, d, bounds, k + 1, m, y);
      } else {
        NothingLeft(document, [d], bounds, k + 1);
        JoinOne(m, x, d.(startByte := bounds[k]));
      }
    }
  }

  lemma JoinOne(m: seq<Classification>, x: Classification, c: Classification)
    requires x.endByte == c.startByte && SameLabel(x, c)
    ensures JoinAll(m + [x], [c]) == m + [x.(endByte := c.endByte)]
    ensures JoinAll(m + [x], []) == m + [x]
  {
    assert (m + [x])[..|m|] == m;
    assert JoinAll(Join(m + [x], c), []) == Join(m + [x], c);
  }

  lemma JoinNew(m: seq<Classification>, c: Classification)
    requires m == [] || Apart(m[|m| - 1], c)
    ensures JoinAll(m, [c]) == m + [c]
  {
    assert JoinAll(Join(m, c), []) == Join(m, c);
  }

  /** The fragments of a decision merge back to the decision, trimmed. */
  lemma PiecesJoin(document: string, d: Classification, bounds: seq<nat>, m: seq<Classification>)
    requires Cut(document, bounds) && Bounds(document, bounds) && HasPayload(document, d)
    requires m == [] || Apart(m[|m| - 1], d)
    ensures JoinAll(m, Flat(document, [d], bounds, 0)) == m + [Trim(document, d, bounds)]
  {
    var j := StartRegion(document, d, bounds);
    hide Cut, Bounds, HasPayload, Apart, Flat, Blank, TailEnd, JoinAll, Piece, Trim, RegionOf;
    var hi := bounds[j + 1];
    PiecesBefore(document, d, bounds, 0, j);
    if d.endByte <= hi || !Blank(document[d.startByte..hi]) {
      EarlyJoin(document, d, bounds, j, m);
    } else {
      FlatStep(document, d, bounds, j);
      BlankHead(document, d, bounds[j], hi);
      LateJoin(document, d, bounds, j + 1, m);
    }
  }

  /** The region where a decision starts, and what trimming makes of it. */
  lemma StartRegion(document: string, d: Classification, bounds: seq<nat>) returns (j: nat)
    requires Cut(document, bounds) && Bounds(document, bounds) && HasPayload(document, d)
    ensures j + 1 < |bounds| && bounds[j] <= d.startByte < bounds[j + 1] <= |document| && Inside(document, d)
    ensures Trim(document, d, bounds)
         == if d.endByte <= bounds[j + 1] then d
            else d.(startByte := if Blank(document[d.startByte..bounds[j + 1]]) then bounds[j + 1] else d.startByte,
                    endByte := TailEnd(document, d, bounds, j + 1))
  {
    hide Blank, TailEnd;
    CutHasBounds(document, bounds);
    j := RegionOf(document, bounds, d.startByte, 0);
  }

  lemma BlankHead(document: string, d: Classification, lo: nat, hi: nat)
    requires lo <= d.startByte <= hi < d.endByte && hi <= |document| && Blank(document[d.startByte..hi])
    ensures Piece(document, d, lo, hi) == []
    ensures forall rest: seq<Classification> :: Piece(document, d, lo, hi) + rest == rest
  {
    assert Clip(d, lo, hi).startByte == d.startByte && Clip(d, lo, hi).endByte == hi;
    forall rest: seq<Classification> ensures Piece(document, d, lo, hi) + rest == rest {
      assert [] + rest == rest;
    }
  }

  /** A decision whose first fragment is kept starts where it did. */
  lemma EarlyJoin(document: string, d: Classification, bounds: seq<nat>, k: nat, m: seq<Classification>)
    requires Cut(document, bounds) && Bounds(document, bounds) && HasPayload(document, d)
    requires k + 1 < |bounds| && bounds[k] <= d.startByte < bounds[k + 1]
    requires d.endByte <= bounds[k + 1] || !Blank(document[d.startByte..bounds[k + 1]])
    requires m == [] || Apart(m[|m| - 1], d)
    ensures JoinAll(m, Flat(document, [d], bounds, k))
         == m + [if d.endByte <= bounds[k + 1] then d else d.(endByte := TailEnd(document, d, bounds, k + 1))]
  {
    hide Blank;
    FlatStep(document, d, bounds, k);
    var piece, rest := Piece(document, d, bounds[k], bounds[k + 1]), Flat(document, [d], bounds, k + 1);
    JoinAllSplits(m, piece, rest);
    if d.endByte <= bounds[k + 1] {
      NothingLeft(document, [d], bounds, k + 1);
      JoinNew(m, d);
    } else {
      var c := d.(endByte := bounds[k + 1]);
      JoinNew(m, c);
      TailJoins(document, d, bounds, k + 1, m, c);
    }
  }

  /** A decision whose first fragment was dropped starts with the next one. */
  lemma LateJoin(document: string, d: Classification, bounds: seq<nat>, k: nat, m: seq<Classification>)
    requires Cut(document, bounds) && Bounds(document, bounds) && HasPayload(document, d)
    requires k < |bounds| && d.startByte < bounds[k] < d.endByte && Blank(document[d.startByte..bounds[k]])
    requires m == [] || Apart(m[|m| - 1], d)
    ensures JoinAll(m, Flat(document, [d], bounds, k))
         == m + [d.(startByte := bounds[k], endByte := TailEnd(document, d, bounds, k))]
  {
    hide Blank;
    BlankParts(document, d.startByte, bounds[k], d.endByte);
    FlatStep(document, d, bounds, k);
    var piece, rest := Piece(document, d, bounds[k], bounds[k + 1]), Flat(document, [d], bounds, k + 1);
    JoinAllSplits(m, piece, rest);
    if bounds[k + 1] <= d.endByte {
      var c := d.(startByte := bounds[k], endByte := bounds[k + 1]);
      JoinNew(m, c);
      TailJoins(document, d, bounds, k + 1, m, c);
    } else {
      NothingLeft(document, [d], bounds, k + 1);
      JoinNew(m, d.(startByte := bounds[k]));
    }
  }

  /** Splitting at all region boundaries, dropping blank fragments and merging
      again gives one entry per decision, trimmed only at blank ends. */
  lemma {:induction false} SplitThenMerge(document: string, ds: seq<Classification>, bounds: seq<nat>)
    requires Cut(document, bounds) && Bounds(document, bounds) && Decided(document, ds)
    ensures JoinAll([], Flat(document, ds, bounds, 0)) == TrimAll(document, ds, bounds)
    decreases |ds|
  {
    if ds == [] {
      NothingLeft(document, ds, bounds, 0);
    } else {
      var init, d := ds[..|ds| - 1], ds[|ds| - 1];
      DecidedLast(document, ds, bounds);
      hide Cut, Bounds, Decided, HasPayload, Flat, JoinAll, Trim, TrimAll, Apart;
      SplitThenMerge(document, init, bounds);
      FlatSplits(document, init, d, bounds, 0);
      JoinAllSplits([], Flat(document, init, bounds, 0), Flat(document, [d], bounds, 0));
      PiecesJoin(document, d, bounds, TrimAll(document, init, bounds));
    }
  }

  lemma DecidedLast(document: string, ds: seq<Classification>, bounds: seq<nat>)
    requires Cut(document, bounds) && Decided(document, ds) && ds != []
    ensures var init, d := ds[..|ds| - 1], ds[|ds| - 1];
      && ds == init + [d] && Decided(document, init) && HasPayload(document, d)
      && (forall c | c in init :: Inside(document, c) && c.endByte <= d.startByte)
      && TrimAll(document, ds, bounds) == TrimAll(document, init, bounds) + [Trim(document, d, bounds)]
      && (init != [] ==> Apart(TrimAll(document, init, bounds)[|init| - 1], d))
  {
    hide Cut, Trim, HasPayload;
    var init, d := ds[..|ds| - 1], ds[|ds| - 1];
    assert d in ds && forall c | c in init :: c in ds;
    forall c | c in init ensures c.endByte <= d.startByte {
      var i :| 0 <= i < |init| && init[i] == c;
      assert Apart(ds[i], ds[|ds| - 1]);
    }
    if init != [] {
      var prev := ds[|ds| - 2];
      assert prev in ds && init[|init| - 1] == prev;
      TrimKeepsPayload(document, prev, bounds);
      assert Apart(prev, d);
    }
    PayloadIsInside(document, ds);
    assert TrimAll(document, ds, bounds) == TrimAll(document, init, bounds) + [Trim(document, d, bounds)];
  }

  lemma PayloadIsInside(document: string, ds: seq<Classification>)
    requires forall c | c in ds :: HasPayload(document, c)
    ensures forall c | c in ds :: Inside(document, c)
  {
  }
}
