/** Sorting, merging and checking the coverage of decisions. */
module Coverage {
  import opened Markers
  import opened Materialize
  import opened Fragments

  // -------------------------------------------------------------------- sorting

  predicate Earlier(a: Classification, b: Classification) {
    a.startByte < b.startByte || (a.startByte == b.startByte && a.endByte < b.endByte)
  }

  function Insert(cs: seq<Classification>, c: Classification): seq<Classification> {
    if cs != [] && Earlier(c, cs[|cs| - 1]) then Insert(cs[..|cs| - 1], c) + [cs[|cs| - 1]] else cs + [c]
  }

  /** The stable order by start, then by end. */
  function SortDecisions(cs: seq<Classification>): seq<Classification> {
    if cs == [] then [] else Insert(SortDecisions(cs[..|cs| - 1]), cs[|cs| - 1])
  }

  ghost predicate Sorted(cs: seq<Classification>) {
    forall i, j | 0 <= i < j < |cs| :: !Earlier(cs[j], cs[i])
  }

  lemma NotEarlier(a: Classification, b: Classification, c: Classification)
    requires !Earlier(b, a) && !Earlier(c, b)
    ensures !Earlier(c, a)
  {
  }

  lemma {:induction false} InsertKeepsOrder(cs: seq<Classification>, c: Classification)
    requires Sorted(cs)
    ensures Sorted(Insert(cs, c)) && multiset(Insert(cs, c)) == multiset(cs) + multiset{c}
    decreases |cs|
  {
    if cs != [] && Earlier(c, cs[|cs| - 1]) {
      var init, last := cs[..|cs| - 1], cs[|cs| - 1];
      InsertKeepsOrder(init, c);
      assert cs == init + [last];
      LastIsLatest(cs, init, c, Insert(init, c));
    } else {
      forall i | 0 <= i < |cs| ensures !Earlier(c, cs[i]) {
        if i < |cs| - 1 {
          NotEarlier(cs[i], cs[|cs| - 1], c);
        }
      }
    }
  }

  lemma LastIsLatest(cs: seq<Classification>, init: seq<Classification>, c: Classification, out: seq<Classification>)
    requires cs != [] && Sorted(cs) && init == cs[..|cs| - 1] && Earlier(c, cs[|cs| - 1])
    requires Sorted(out) && multiset(out) == multiset(init) + multiset{c}
    ensures Sorted(out + [cs[|cs| - 1]])
  {
    var last := cs[|cs| - 1];
    forall i | 0 <= i < |out| ensures !Earlier(last, out[i]) {
      assert out[i] in multiset(out);
      if out[i] != c {
        assert out[i] in multiset(init);
        var k :| 0 <= k < |init| && init[k] == out[i];
        assert !Earlier(cs[|cs| - 1], cs[k]);
      }
    }
  }

  lemma {:induction false} SortIsSorted(cs: seq<Classification>)
    ensures Sorted(SortDecisions(cs)) && multiset(SortDecisions(cs)) == multiset(cs)
    decreases |cs|
  {
    if cs == [] {
      assert SortDecisions(cs) == [];
    } else {
      var init, last := cs[..|cs| - 1], cs[|cs| - 1];
      hide SortDecisions, Insert, Sorted;
      SortIsSorted(init);
      InsertKeepsOrder(SortDecisions(init), last);
      SortStep(cs, init, last);
    }
  }

  lemma SortStep(cs: seq<Classification>, init: seq<Classification>, last: Classification)
    requires cs == init + [last]
    ensures SortDecisions(cs) == Insert(SortDecisions(init), last)
    ensures multiset(cs) == multiset(init) + multiset{last}
  {
    hide Insert;
    assert cs[..|cs| - 1] == init;
  }

  lemma NothingToSort()
    ensures SortDecisions([]) == []
  {
  }

  lemma LastStays(init: seq<Classification>, last: Classification)
    requires Sorted(init + [last])
    ensures Insert(init, last) == init + [last]
  {
    if init != [] {
      assert (init + [last])[|init| - 1] == init[|init| - 1] && (init + [last])[|init|] == last;
    }
  }

  lemma {:induction false} SortedStays(cs: seq<Classification>)
    requires Sorted(cs)
    ensures SortDecisions(cs) == cs
    decreases |cs|
  {
    hide SortDecisions, Insert;
    if cs == [] {
      assert SortDecisions([]) == [] by { NothingToSort(); }
    }
    if cs != [] {
      var init, last := cs[..|cs| - 1], cs[|cs| - 1];
      SortedStays(init);
      assert cs == init + [last];
      SortStep(cs, init, last);
      LastStays(init, last);
    }
  }

  // ------------------------------------------------------------------- coverage

  ghost predicate CoveredBy(ds: seq<Classification>, p: int) {
    exists d | d in ds :: d.startByte <= p < d.endByte
  }

  ghost predicate Disjoint(ds: seq<Classification>) {
    forall i, j | 0 <= i < j < |ds| :: ds[i].endByte <= ds[j].startByte || ds[j].endByte <= ds[i].startByte
  }

  ghost predicate AllWithin(ds: seq<Classification>, lo: int, hi: int) {
    forall d | d in ds :: lo <= d.startByte < d.endByte <= hi
  }

  /** Every byte between two positions that is not whitespace is covered. */
  ghost predicate PayloadCovered(document: string, ds: seq<Classification>, lo: int, hi: int)
    requires 0 <= lo <= hi <= |document|
  {
    forall p | lo <= p < hi && !Whitespace(document[p]) :: CoveredBy(ds, p)
  }

  ghost predicate CompletelyCovers(document: string, ds: seq<Classification>) {
    AllWithin(ds, 0, |document|) && Disjoint(ds) && PayloadCovered(document, ds, 0, |document|)
  }

  /** The map shows what is covered; its positions count from `lo`. */
  ghost predicate Shows(coverage: seq<bool>, ds: seq<Classification>, lo: int) {
    forall o | 0 <= o < |coverage| :: coverage[o] <==> CoveredBy(ds, lo + o)
  }

  /** Marks a range, unless some position in it is already marked. */
  method MarkRange(coverage: array<bool>, from: nat, to: nat) returns (unmarked: bool)
    requires from <= to <= coverage.Length
    modifies coverage
    ensures unmarked <==> forall o | from <= o < to :: !old(coverage[..])[o]
    ensures unmarked ==>
              forall o | 0 <= o < coverage.Length :: coverage[..][o] == (old(coverage[..])[o] || from <= o < to)
  {
    for position := from to to
      invariant forall o | 0 <= o < coverage.Length :: coverage[o] == (old(coverage[..])[o] || from <= o < position)
      invariant forall o | from <= o < position :: !old(coverage[..])[o]
    {
      if coverage[position] {
        return false;
      }
      coverage[position] := true;
    }
    return true;
  }

  /** Marks all decisions on a fresh coverage map; fails on an invalid range or
      an overlap. */
  method MarkAll(ds: seq<Classification>, lo: nat, hi: nat) returns (valid: bool, coverage: array<bool>)
    requires lo <= hi
    ensures fresh(coverage) && coverage.Length == hi - lo
    ensures valid <==> AllWithin(ds, lo, hi) && Disjoint(ds)
    ensures valid ==> Shows(coverage[..], ds, lo)
  {
    coverage := new bool[hi - lo](_ => false);
    for i := 0 to |ds|
      invariant fresh(coverage) && coverage.Length == hi - lo
      invariant AllWithin(ds[..i], lo, hi) && Disjoint(ds[..i]) && Shows(coverage[..], ds[..i], lo)
    {
      var d := ds[i];
      if d.startByte < lo || d.endByte <= d.startByte || d.endByte > hi {
        assert d in ds;
        return false, coverage;
      }
      ghost var before := coverage[..];
      var unmarked := MarkRange(coverage, d.startByte - lo, d.endByte - lo);
      if !unmarked {
        ghost var o :| d.startByte - lo <= o < d.endByte - lo && before[o];
        OverlapIsNotDisjoint(ds, i, lo + o);
        return false, coverage;
      }
      MarkedMore(before, coverage[..], ds, i, lo, hi);
    }
    assert ds[..|ds|] == ds;
    return true, coverage;
  }

  lemma MarkedMore(before: seq<bool>, after: seq<bool>, ds: seq<Classification>, i: nat, lo: nat, hi: nat)
    requires i < |ds| && lo <= ds[i].startByte < ds[i].endByte <= hi && |before| == |after| == hi - lo
    requires AllWithin(ds[..i], lo, hi) && Disjoint(ds[..i]) && Shows(before, ds[..i], lo)
    requires forall o | ds[i].startByte - lo <= o < ds[i].endByte - lo :: !before[o]
    requires forall o | 0 <= o < |after| :: after[o] == (before[o] || ds[i].startByte - lo <= o < ds[i].endByte - lo)
    ensures AllWithin(ds[..i + 1], lo, hi) && Disjoint(ds[..i + 1]) && Shows(after, ds[..i + 1], lo)
  {
    CoveredMore(ds, i);
    forall p | ds[i].startByte <= p < ds[i].endByte ensures !CoveredBy(ds[..i], p) {
      assert !before[p - lo];
    }
    FreshIsDisjoint(ds, i, lo, hi);
  }

  lemma CoveredMore(ds: seq<Classification>, i: nat)
    requires i < |ds|
    ensures forall p :: CoveredBy(ds[..i + 1], p) <==> CoveredBy(ds[..i], p) || ds[i].startByte <= p < ds[i].endByte
  {
    assert ds[..i + 1] == ds[..i] + [ds[i]];
    forall p ensures CoveredBy(ds[..i + 1], p) <==> CoveredBy(ds[..i], p) || ds[i].startByte <= p < ds[i].endByte {
      assert ds[i] in ds[..i + 1];
      if CoveredBy(ds[..i], p) {
        var d :| d in ds[..i] && d.startByte <= p < d.endByte;
        assert d in ds[..i + 1];
      }
      if CoveredBy(ds[..i + 1], p) {
        var d :| d in ds[..i + 1] && d.startByte <= p < d.endByte;
        assert d in ds[..i] || d == ds[i];
      }
    }
  }

  lemma FreshIsDisjoint(ds: seq<Classification>, i: nat, lo: nat, hi: nat)
    requires i < |ds| && AllWithin(ds[..i], lo, hi) && Disjoint(ds[..i])
    requires lo <= ds[i].startByte < ds[i].endByte <= hi
    requires forall p | ds[i].startByte <= p < ds[i].endByte :: !CoveredBy(ds[..i], p)
    ensures AllWithin(ds[..i + 1], lo, hi) && Disjoint(ds[..i + 1])
  {
    var d := ds[i];
    assert ds[..i + 1] == ds[..i] + [d];
    forall j | 0 <= j < i ensures ds[j].endByte <= d.startByte || d.endByte <= ds[j].startByte {
      assert ds[j] in ds[..i];
      var p := if ds[j].startByte < d.startByte then d.startByte else ds[j].startByte;
      assert ds[j].startByte <= p < ds[j].endByte ==> CoveredBy(ds[..i], p);
    }
  }

  lemma OverlapIsNotDisjoint(ds: seq<Classification>, i: nat, p: int)
    requires i < |ds| && CoveredBy(ds[..i], p) && ds[i].startByte <= p < ds[i].endByte
    ensures !Disjoint(ds)
  {
    var c :| c in ds[..i] && c.startByte <= p < c.endByte;
    var j :| 0 <= j < i && ds[..i][j] == c;
    assert ds[j].startByte <= p < ds[j].endByte;
  }

  /** Every byte range that is not whitespace and not covered, from the first to
      the last such byte. */
  method Uncovered(document: string, coverage: array<bool>) returns (spans: seq<(nat, nat)>)
    requires coverage.Length == |document|
    ensures spans == [] <==> forall p | 0 <= p < |document| :: coverage[p] || Whitespace(document[p])
  {
    spans := [];
    var position := 0;
    while position < |document|
      invariant 0 <= position <= |document|
      invariant spans == [] <==> forall p | 0 <= p < position :: coverage[p] || Whitespace(document[p])
    {
      if coverage[position] || Whitespace(document[position]) {
        position := position + 1;
      } else {
        var start, end := position, position + 1;
        position := position + 1;
        while position < |document| && !coverage[position]
          invariant start < end <= position <= |document|
        {
          if !Whitespace(document[position]) {
            end := position + 1;
          }
          position := position + 1;
        }
        spans := spans + [(start, end)];
        assert !(coverage[start] || Whitespace(document[start]));
      }
    }
  }

  /** Accepts exactly the decisions that are valid ranges, do not overlap and
      cover every payload byte. */
  method ValidateCompleteCoverage(document: string, ds: seq<Classification>) returns (valid: bool)
    ensures valid <==> CompletelyCovers(document, ds)
  {
    var marked, coverage := MarkAll(ds, 0, |document|);
    if !marked {
      return false;
    }
    assert forall p | 0 <= p < |document| :: coverage[p] == coverage[..][p];
    var spans := Uncovered(document, coverage);
    return spans == [];
  }

  // -------------------------------------------------------- one region's receipt

  ghost predicate RegionValid(document: string, ds: seq<Classification>, lo: nat, hi: nat, complete: bool)
    requires lo <= hi <= |document|
  {
    && ds != [] && AllWithin(ds, lo, hi) && Disjoint(ds)
    && (forall d | d in ds :: ValidKind(d) && HasPayload(document, d))
    && (complete ==> PayloadCovered(document, ds, lo, hi))
  }

  predicate Labels(c: Classification) {
    match c.kind
    case Anchor => MarkerId(c.markerId)
    case NonNormative => c.markerId == ""
    case Other(_) => false
  }

  /** Accepts exactly the valid receipts of a region. */
  method ValidateRegionDecisions(document: string, ds: seq<Classification>, lo: nat, hi: nat, complete: bool)
    returns (valid: bool)
    requires lo <= hi <= |document|
    ensures valid <==> RegionValid(document, ds, lo, hi, complete)
  {
    if ds == [] {
      return false;
    }
    var marked, coverage := MarkAll(ds, lo, hi);
    if !marked {
      return false;
    }
    for i := 0 to |ds|
      invariant forall d | d in ds[..i] :: ValidKind(d) && HasPayload(document, d)
    {
      assert ds[i] in ds;
      if !Labels(ds[i]) || Blank(document[ds[i].startByte..ds[i].endByte]) {
        return false;
      }
      assert ds[..i + 1] == ds[..i] + [ds[i]];
    }
    assert ds[..|ds|] == ds;
    if complete {
      for offset := 0 to hi - lo
        invariant forall p | lo <= p < lo + offset && !Whitespace(document[p]) :: CoveredBy(ds, p)
      {
        assert coverage[offset] == coverage[..][offset];
        if !Whitespace(document[lo + offset]) && !coverage[offset] {
          assert !CoveredBy(ds, lo + offset);
          return false;
        }
      }
    }
    return true;
  }

  // -------------------------------------------------------------------- merging

  /** Merges touching entries with the same label, in one pass. */
  method MergeSorted(cs: seq<Classification>) returns (merged: seq<Classification>)
    ensures merged == JoinAll([], cs)
  {
    merged := [];
    assert cs[0..] == cs;
    for i := 0 to |cs|
      invariant JoinAll(merged, cs[i..]) == JoinAll([], cs)
    {
      var c := cs[i];
      assert cs[i..][0] == c && cs[i..][1..] == cs[i + 1..];
      if merged != [] && merged[|merged| - 1].endByte == c.startByte && SameLabel(merged[|merged| - 1], c) {
        ghost var joined := Join(merged, c);
        merged := merged[|merged| - 1 := merged[|merged| - 1].(endByte := c.endByte)];
        assert merged == joined;
      } else {
        merged := merged + [c];
      }
    }
  }

  method MergeAdjacentDecisions(ds: seq<Classification>) returns (merged: seq<Classification>)
    ensures merged == JoinAll([], SortDecisions(ds))
  {
    merged := MergeSorted(SortDecisions(ds));
  }
}
