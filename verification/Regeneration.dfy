/** Regenerating a registry: sort, check coverage, merge, split by region,
    validate, order again, and print the markers. */
module Regeneration {
  import opened Results
  import opened Markers
  import opened Materialize
  import opened Fragments
  import opened Coverage
  import opened Regions
  import opened Registry
  import opened RegistryFacts

  // ------------------------------------------------------------------- merging

  /** The merged list of some sorted decisions: still in order, with nothing
      left to merge, and covering the same bytes under the same labels. */
  ghost predicate IsMergeOf(document: string, m: seq<Classification>, ds: seq<Classification>) {
    && Decided(document, m)
    && (m == [] <==> ds == [])
    && (ds != [] ==> m[|m| - 1].endByte == ds[|ds| - 1].endByte)
    && (forall p :: CoveredBy(m, p) <==> CoveredBy(ds, p))
    && (ValidLabels(m) <==> ValidLabels(ds))
  }

  lemma {:induction false} MergeIsDecided(document: string, ds: seq<Classification>)
    requires Ascending(ds) && forall d | d in ds :: HasPayload(document, d)
    ensures IsMergeOf(document, JoinAll([], ds), ds)
    decreases |ds|
  {
    if ds == [] {
      assert IsMergeOf(document, [], []);
    } else {
      var init, d := ds[..|ds| - 1], ds[|ds| - 1];
      AscendingParts(document, ds);
      hide IsMergeOf, HasPayload, Ascending;
      MergeIsDecided(document, init);
      var m := JoinAll([], init);
      JoinAllSplits([], init, [d]);
      JoinsOne(m, d);
      hide JoinAll, Join;
      if Join(m, d) == m + [d] {
        AppendApart(document, m, init, d);
      } else {
        ExtendLast(document, m, init, d);
      }
    }
  }

  lemma JoinsOne(m: seq<Classification>, d: Classification)
    ensures JoinAll(m, [d]) == Join(m, d)
  {
    assert JoinAll(Join(m, d), []) == Join(m, d);
  }

  lemma AscendingParts(document: string, ds: seq<Classification>)
    requires ds != [] && Ascending(ds) && forall d | d in ds :: HasPayload(document, d)
    ensures var init, d := ds[..|ds| - 1], ds[|ds| - 1];
      && ds == init + [d] && Ascending(init) && (forall c | c in init :: HasPayload(document, c)) &&
        HasPayload(document, d)
      && (init != [] ==> init[|init| - 1].endByte <= d.startByte)
  {
    var init, d := ds[..|ds| - 1], ds[|ds| - 1];
    assert d in ds && forall c | c in init :: c in ds;
    if init != [] {
      assert ds[|ds| - 2].endByte <= ds[|ds| - 1].startByte;
    }
  }

  lemma EarlierEntries(document: string, m: seq<Classification>)
    requires Decided(document, m) && m != []
    ensures forall i | 0 <= i < |m| - 1 :: m[i].endByte <= m[|m| - 1].startByte < m[|m| - 1].endByte
    ensures m == m[..|m| - 1] + [m[|m| - 1]]
  {
    assert HasPayload(document, m[|m| - 1]);
    forall i | 0 <= i < |m| - 1 ensures m[i].endByte <= m[|m| - 1].startByte {
      assert Apart(m[i], m[|m| - 1]);
    }
  }

  lemma CoverOne(ds: seq<Classification>, d: Classification)
    ensures forall p :: CoveredBy(ds + [d], p) <==> CoveredBy(ds, p) || d.startByte <= p < d.endByte
  {
    CoveredMore(ds + [d], |ds|);
    assert (ds + [d])[..|ds| + 1] == ds + [d] && (ds + [d])[..|ds|] == ds;
  }

  lemma LabelOne(ds: seq<Classification>, d: Classification)
    ensures ValidLabels(ds + [d]) <==> ValidLabels(ds) && ValidKind(d)
  {
    assert d in ds + [d];
    assert forall c | c in ds :: c in ds + [d];
  }

  lemma AppendApart(document: string, m: seq<Classification>, init: seq<Classification>, d: Classification)
    requires IsMergeOf(document, m, init) && HasPayload(document, d) && Join(m, d) == m + [d]
    requires init != [] ==> init[|init| - 1].endByte <= d.startByte
    ensures IsMergeOf(document, m + [d], init + [d])
  {
    CoverOne(m, d);
    CoverOne(init, d);
    LabelOne(m, d);
    LabelOne(init, d);
    if m != [] {
      EarlierEntries(document, m);
      NotExtended(m, d);
    }
    hide CoveredBy, ValidLabels;
    var out := m + [d];
    forall i, j | 0 <= i < j < |out| ensures Apart(out[i], out[j]) {
      if j < |m| {
        assert Apart(m[i], m[j]);
      }
    }
  }

  lemma NotExtended(m: seq<Classification>, d: Classification)
    requires m != [] && Join(m, d) == m + [d]
    ensures !(m[|m| - 1].endByte == d.startByte && SameLabel(m[|m| - 1], d))
  {
    assert |Join(m, d)| == |m| + 1;
  }

  lemma ExtendLast(document: string, m: seq<Classification>, init: seq<Classification>, d: Classification)
    requires IsMergeOf(document, m, init) && HasPayload(document, d) && Join(m, d) != m + [d]
    ensures IsMergeOf(document, Join(m, d), init + [d])
  {
    var front, last := m[..|m| - 1], m[|m| - 1];
    var longer := last.(endByte := d.endByte);
    EarlierEntries(document, m);
    assert Join(m, d) == front + [longer];
    ExtendedIsDecided(document, m, d);
    hide Decided, HasPayload, SameLabel, Join;
    CoverOne(front, last);
    CoverOne(front, longer);
    CoverOne(init, d);
    LabelOne(front, last);
    LabelOne(front, longer);
    LabelOne(init, d);
    hide CoveredBy, ValidLabels;
    assert last.startByte < last.endByte == d.startByte < d.endByte;
    assert ValidKind(longer) <==> ValidKind(last);
    assert ValidKind(last) <==> ValidKind(d);
  }

  lemma ExtendedIsDecided(document: string, m: seq<Classification>, d: Classification)
    requires Decided(document, m) && HasPayload(document, d) && Join(m, d) != m + [d]
    ensures Decided(document, Join(m, d))
    ensures m != [] && m[|m| - 1].startByte < m[|m| - 1].endByte == d.startByte < d.endByte && SameLabel(m[|m| - 1], d)
    ensures ValidKind(m[|m| - 1]) <==> ValidKind(d)
  {
    var front, last := m[..|m| - 1], m[|m| - 1];
    var longer := last.(endByte := d.endByte);
    assert last in m && HasPayload(document, last);
    BlankParts(document, last.startByte, last.endByte, longer.endByte);
    hide Blank;
    var out := front + [longer];
    assert Join(m, d) == out;
    forall i, j | 0 <= i < j < |out| ensures Apart(out[i], out[j]) {
      assert Apart(m[i], m[j]);
    }
    assert forall c | c in front :: c in m;
  }

  lemma SortedDisjointAscends(document: string, ds: seq<Classification>)
    requires Sorted(ds) && CompletelyCovers(document, ds)
    ensures Ascending(ds)
  {
    forall i, j | 0 <= i < j < |ds| ensures ds[i].endByte <= ds[j].startByte {
      assert ds[i] in ds && ds[j] in ds && !Earlier(ds[j], ds[i]);
    }
  }

  // ----------------------------------------------------------------- operations

  /** Merges the receipts of all regions and refuses an anchor in two places. */
  method OrderedClassifications(buckets: seq<seq<Classification>>)
    returns (result: Result<seq<Classification>, RegistryError>)
    ensures var merged := JoinAll([], SortDecisions(FlattenFrom(buckets, 0)));
      && (result.Ok? <==> DistinctAnchors(merged))
      && (result.Ok? ==> result.value == merged)
  {
    var all := Collect(buckets);
    var merged := MergeSorted(SortDecisions(all));
    var duplicate := FindDuplicate(merged);
    return match duplicate { case Some(id) => Err(DuplicateAnchor(id)) case None => Ok(merged) };
  }

  method Collect(buckets: seq<seq<Classification>>) returns (all: seq<Classification>)
    ensures all == FlattenFrom(buckets, 0)
  {
    all := [];
    for k := 0 to |buckets|
      invariant all + FlattenFrom(buckets, k) == FlattenFrom(buckets, 0)
    {
      all := all + buckets[k];
    }
    assert all + [] == all;
  }

  ghost predicate AnchorAt(cs: seq<Classification>, j: nat, id: string)
    requires j < |cs|
  {
    cs[j].kind == Anchor && cs[j].markerId == id
  }

  method FindDuplicate(merged: seq<Classification>) returns (duplicate: Option<string>)
    ensures duplicate.None? <==> DistinctAnchors(merged)
  {
    var seenAnchors: set<string> := {};
    for i := 0 to |merged|
      invariant DistinctAnchors(merged[..i])
      invariant forall j | 0 <= j < i && merged[j].kind == Anchor :: merged[j].markerId in seenAnchors
      invariant forall id | id in seenAnchors :: exists j | 0 <= j < i :: AnchorAt(merged, j, id)
    {
      if merged[i].kind == Anchor {
        if merged[i].markerId in seenAnchors {
          ghost var j :| 0 <= j < i && AnchorAt(merged, j, merged[i].markerId);
          assert merged[j].kind == Anchor && merged[j].markerId == merged[i].markerId;
          return Some(merged[i].markerId);
        }
        seenAnchors := seenAnchors + {merged[i].markerId};
        assert AnchorAt(merged, i, merged[i].markerId);
      }
    }
    assert merged[..|merged|] == merged;
    return None;
  }

  /** The regions whose receipt is empty, invalid or incomplete. */
  method PendingRegions(document: string, regions: seq<Region>, buckets: seq<seq<Classification>>)
    returns (pending: seq<nat>)
    requires Tiles(document, regions) && |buckets| == |regions|
    ensures pending == [] <==> NothingPending(document, regions, buckets)
  {
    pending := [];
    var start: nat := 0;
    for k := 0 to |regions|
      invariant start == StartOf(regions, k) <= |document|
      invariant pending == [] <==> forall i | 0 <= i < k :: ReceiptValid(document, regions, buckets, i)
    {
      assert TileAt(document, regions, k);
      var end := start + |regions[k].Bytes()|;
      var valid := ValidateRegionDecisions(document, buckets[k], start, end, true);
      assert valid <==> ReceiptValid(document, regions, buckets, k);
      if !valid {
        pending := pending + [regions[k].ordinal];
      }
      start := end;
    }
  }

  datatype Regenerated = Regenerated(regions: seq<Region>, receipts: seq<seq<Classification>>, marked: string)

  ghost function Merged(decisions: seq<Classification>): seq<Classification> {
    JoinAll([], SortDecisions(decisions))
  }

  /** What the decisions of a document have to be for regeneration. */
  ghost predicate Regenerable(blank: string -> bool, document: string, decisions: seq<Classification>) {
    && CompletelyCovers(document, SortDecisions(decisions))
    && document != "" && document[|document| - 1] == '\n' && Fillable(blank, Lines(document))
    && ValidLabels(decisions) && DistinctAnchors(Merged(decisions)) && !Contains(document, PREFIX)
  }

  /** The new registry and the marked document. Regeneration fails for exactly
      these reasons: coverage, the final newline or leftover blank lines, an
      invalid label, an anchor in two places, marker text in the document. The
      later checks of the registry and of the printed markers never fail. */
  method Regenerate(blank: string -> bool, document: string, decisions: seq<Classification>)
    returns (result: Result<Regenerated, RegistryError>)
    requires forall line :: Blank(line) ==> blank(line)
    requires forall d | d in decisions :: HasPayload(document, d)
    ensures result.Ok? <==> Regenerable(blank, document, decisions)
    ensures result.Ok? ==> IsResult(blank, document, decisions, result.value)
  {
    var ds := SortDecisions(decisions);
    SortIsSorted(decisions);
    SameMembers(decisions, ds);
    var covered := ValidateCompleteCoverage(document, ds);
    if !covered {
      return Err(Incomplete);
    }
    SortedDisjointAscends(document, ds);
    SortedStays(ds);
    MergeIsDecided(document, ds);
    var merged := MergeAdjacentDecisions(ds);
    var generated := GenerateRegions(blank, document);
    if generated.Err? {
      return Err(BadRegions(generated.error));
    }
    var regions := generated.value;
    UniverseCuts(blank, document, Lines(document), regions);
    result := Register(document, regions, merged);
  }

  lemma SameMembers(a: seq<Classification>, b: seq<Classification>)
    requires multiset(a) == multiset(b)
    ensures forall c :: c in a <==> c in b
  {
    assert forall c :: c in a <==> c in multiset(a);
    assert forall c :: c in b <==> c in multiset(b);
  }

  ghost predicate IsRegenerated(document: string, merged: seq<Classification>, r: Regenerated) {
    && Cut(document, BoundsOf(r.regions)) && Decided(document, merged)
    && (forall d | d in merged :: Inside(document, d))
    && IsSplit(document, r.regions, merged, r.receipts) && NothingPending(document, r.regions, r.receipts)
    && var trimmed := TrimAll(document, merged, BoundsOf(r.regions));
       && Placed(document, trimmed, 0) && r.marked == Marked(document, trimmed, 0)
       && Parsed(r.marked) == Ok(RangesOf(document, trimmed, 0)) && Strip(r.marked, 0) == document
  }

  /** What regeneration yields: one result at most for a document and its
      decisions (see ResultIsUnique). */
  ghost predicate IsResult(blank: string -> bool, document: string, decisions: seq<Classification>, r: Regenerated) {
    r.regions == RegionsOf(blank, Lines(document)) && IsRegenerated(document, Merged(decisions), r)
  }

  method Register(document: string, regions: seq<Region>, merged: seq<Classification>)
    returns (result: Result<Regenerated, RegistryError>)
    requires Tiles(document, regions) && Cut(document, BoundsOf(regions))
    requires Decided(document, merged) && PayloadCovered(document, merged, 0, |document|)
    ensures result.Ok? <==> ValidLabels(merged) && DistinctAnchors(merged) && !Contains(document, PREFIX)
    ensures result.Ok? ==> IsRegenerated(document, merged, result.value) && result.value.regions == regions
  {
    DecidedAscends(document, merged);
    DecidedIsInside(document, merged);
    var built := BuildRegistry(document, regions, merged);
    var receipts := built.value;
    PendingIffInvalidLabel(document, regions, merged, receipts);
    var pending := PendingRegions(document, regions, receipts);
    if pending != [] {
      return Err(Pending(pending));
    }
    SplitIsOrdered(document, regions, merged, receipts);
    ghost var trimmed := TrimAll(document, merged, BoundsOf(regions));
    AnchorsStay(document, merged, BoundsOf(regions));
    var ordered := OrderedClassifications(receipts);
    if ordered.Err? {
      return Err(ordered.error);
    }
    TrimmedIsReadable(document, merged, BoundsOf(regions));
    var marked := Materialize.Materialize(document, ordered.value);
    if marked.Err? {
      return Err(Unprintable(marked.error));
    }
    MarkerRoundTrip(document, ordered.value);
    return Ok(Regenerated(regions, receipts, marked.value));
  }

  lemma AnchorsStay(document: string, ds: seq<Classification>, bounds: seq<nat>)
    requires Cut(document, bounds) && Decided(document, ds) && forall d | d in ds :: Inside(document, d)
    ensures DistinctAnchors(TrimAll(document, ds, bounds)) <==> DistinctAnchors(ds)
  {
    hide Cut, Trim, Blank;
    var out := TrimAll(document, ds, bounds);
    forall i | 0 <= i < |ds| ensures TrimmedFrom(document, out[i], ds[i]) {
      assert ds[i] in ds && HasPayload(document, ds[i]);
      TrimKeepsPayload(document, ds[i], bounds);
    }
    TrimmedIsLabelled(document, ds, out);
  }

  /** What a regeneration writes is a ledger that the next one can start from:
      the decisions of its receipts are the trimmed merged ones. */
  lemma RegeneratedIsDecided(document: string, merged: seq<Classification>, r: Regenerated)
    requires IsRegenerated(document, merged, r)
    ensures var ds := JoinAll([], SortDecisions(FlattenFrom(r.receipts, 0)));
      && Decided(document, ds)
      && ds == TrimAll(document, merged, BoundsOf(r.regions))
  {
    hide Placed, Parsed, RangesOf, Strip, Marked, JoinAll, SortDecisions, FlattenFrom, Cut, IsSplit, NothingPending;
    SplitIsOrdered(document, r.regions, merged, r.receipts);
    TrimmedIsDecided(document, merged, BoundsOf(r.regions));
  }

  lemma TrimmedIsDecided(document: string, ds: seq<Classification>, bounds: seq<nat>)
    requires Cut(document, bounds) && Decided(document, ds) && forall d | d in ds :: Inside(document, d)
    ensures Decided(document, TrimAll(document, ds, bounds))
  {
    hide Cut, Trim, Blank;
    var out := TrimAll(document, ds, bounds);
    forall i | 0 <= i < |ds| ensures TrimmedFrom(document, out[i], ds[i]) {
      assert ds[i] in ds && HasPayload(document, ds[i]);
      TrimKeepsPayload(document, ds[i], bounds);
    }
    TrimmedIsAscending(document, ds, out);
    forall i, j | 0 <= i < j < |out| ensures Apart(out[i], out[j]) {
      assert TrimmedFrom(document, out[i], ds[i]) && TrimmedFrom(document, out[j], ds[j]) && Apart(ds[i], ds[j]);
    }
  }

  // ----------------------------------------------------------- regenerating again

  /** The end that trimming leaves is the old one, or the start of the region
      whose part of the decision was blank. */
  lemma {:induction false} TailEndCases(document: string, d: Classification, bounds: seq<nat>, k: nat)
    requires Cut(document, bounds) && Bounds(document, bounds) && k < |bounds| && bounds[k] <= d.endByte <= |document|
    ensures var end := TailEnd(document, d, bounds, k);
      end == d.endByte || exists m | k <= m < |bounds| - 1 ::
        end == bounds[m] < d.endByte < bounds[m + 1] && Blank(document[bounds[m]..d.endByte])
    decreases |bounds| - k
  {
    if bounds[k] != d.endByte && k + 1 < |bounds| && bounds[k + 1] <= d.endByte {
      TailEndCases(document, d, bounds, k + 1);
    }
  }

  /** A decision and its trimmed form leave the same fragment in a region. */
  lemma PieceStays(document: string, d: Classification, bounds: seq<nat>, k: nat)
    requires Cut(document, bounds) && Bounds(document, bounds) && HasPayload(document, d) && k < |bounds| - 1
    ensures Piece(document, Trim(document, d, bounds), bounds[k], bounds[k + 1])
         == Piece(document, d, bounds[k], bounds[k + 1])
  {
    CutHasBounds(document, bounds);
    TrimKeepsPayload(document, d, bounds);
    hide Cut, Blank;
    var j := RegionOf(document, bounds, d.startByte, 0);
    var t := Trim(document, d, bounds);
    if d.endByte > bounds[j + 1] {
      TailEndCases(document, d, bounds, j + 1);
      EndStays(document, d, t.endByte, bounds, j + 1, k);
      StartStays(document, d.(endByte := t.endByte), t.startByte, bounds, j, k);
    }
  }

  lemma EndStays(document: string, d: Classification, end: int, bounds: seq<nat>, j: nat, k: nat)
    requires Bounds(document, bounds) && Climbs(bounds) && j < |bounds| && k < |bounds| - 1
    requires Inside(document, d) && d.startByte < bounds[j] <= d.endByte
    requires end == d.endByte || exists m | j <= m < |bounds| - 1 ::
      end == bounds[m] < d.endByte < bounds[m + 1] && Blank(document[bounds[m]..d.endByte])
    ensures Piece(document, d.(endByte := end), bounds[k], bounds[k + 1]) ==
              Piece(document, d, bounds[k], bounds[k + 1])
  {
    hide Blank;
  }

  lemma StartStays(document: string, d: Classification, start: int, bounds: seq<nat>, j: nat, k: nat)
    requires Bounds(document, bounds) && Climbs(bounds) && j < |bounds| - 1 && k < |bounds| - 1
    requires Inside(document, d) && bounds[j] <= d.startByte < bounds[j + 1] <= d.endByte
    requires start == d.startByte || (start == bounds[j + 1] && Blank(document[d.startByte..bounds[j + 1]]))
    ensures Piece(document, d.(startByte := start), bounds[k], bounds[k + 1])
         == Piece(document, d, bounds[k], bounds[k + 1])
  {
    hide Blank;
  }

  ghost predicate Climbs(bounds: seq<nat>) {
    forall i, j | 0 <= i <= j < |bounds| :: bounds[i] <= bounds[j]
  }

  lemma {:induction false} BucketStays(document: string, ds: seq<Classification>, bounds: seq<nat>, k: nat)
    requires Cut(document, bounds) && Bounds(document, bounds) && k < |bounds| - 1
    requires forall d | d in ds :: HasPayload(document, d) && Inside(document, d)
    ensures Bucket(document, TrimAll(document, ds, bounds), bounds[k], bounds[k + 1])
         == Bucket(document, ds, bounds[k], bounds[k + 1])
    decreases |ds|
  {
    hide Cut, Trim, Piece, HasPayload;
    if ds != [] {
      var init, d := ds[..|ds| - 1], ds[|ds| - 1];
      assert d in ds && forall c | c in init :: c in ds;
      BucketStays(document, init, bounds, k);
      PieceStays(document, d, bounds, k);
      assert TrimAll(document, ds, bounds)[..|ds| - 1] == TrimAll(document, init, bounds);
    }
  }

  lemma ResultIsUnique(blank: string -> bool, document: string, decisions: seq<Classification>, r: Regenerated,
                       other: Regenerated)
    requires IsResult(blank, document, decisions, r) && IsResult(blank, document, decisions, other)
    ensures r == other
  {
    hide Placed, Parsed, RangesOf, Strip, Marked, JoinAll, SortDecisions, Cut, NothingPending, Bucket, RegionsOf,
      Merged;
    forall k | 0 <= k < |r.regions| ensures r.receipts[k] == other.receipts[k] {
      assert SplitAt(document, r.regions, Merged(decisions), r.receipts, k);
      assert SplitAt(document, r.regions, Merged(decisions), other.receipts, k);
    }
    assert r.receipts == other.receipts;
  }

  /** Regenerating an unchanged document from its own ledger, over the same
      regions, reproduces the ledger and the marked document. */
  lemma RegeneratesItself(document: string, merged: seq<Classification>, r: Regenerated, again: Regenerated)
    requires IsRegenerated(document, merged, r) && again.regions == r.regions
    requires IsRegenerated(document, JoinAll([], SortDecisions(FlattenFrom(r.receipts, 0))), again)
    ensures again == r
  {
    hide Placed, Parsed, RangesOf, Strip, Marked, JoinAll, SortDecisions, FlattenFrom, Cut, NothingPending, Bucket;
    var bounds := BoundsOf(r.regions);
    var ds := JoinAll([], SortDecisions(FlattenFrom(r.receipts, 0)));
    RegeneratedIsDecided(document, merged, r);
    RegeneratedIsDecided(document, ds, again);
    CutHasBounds(document, bounds);
    forall k | 0 <= k < |r.regions| ensures again.receipts[k] == r.receipts[k] {
      BucketStays(document, merged, bounds, k);
      assert SplitAt(document, r.regions, merged, r.receipts, k);
      assert SplitAt(document, r.regions, ds, again.receipts, k);
    }
    assert again.receipts == r.receipts;
  }
}
