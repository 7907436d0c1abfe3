/** The registry of a document: decisions split into one receipt per region,
    and the ordered classifications that all receipts together amount to. */
module Registry {
  import opened Results
  import opened Sequences
  import opened Markers
  import opened Materialize
  import opened Fragments
  import opened Regions

  datatype RegistryError =
    | Incomplete | BadRegions(region: RegionError) | Unassigned(d: Classification) | Pending(ordinals: seq<nat>)
    | DuplicateAnchor(id: string) | Unprintable(error: MaterializeError)

  // --------------------------------------------------------- regions and bounds

  function StartOf(regions: seq<Region>, k: nat): nat
    requires k <= |regions|
  {
    if k == 0 then 0 else StartOf(regions, k - 1) + |regions[k - 1].Bytes()|
  }

  function BoundsOf(regions: seq<Region>): (bounds: seq<nat>)
    ensures |bounds| == |regions| + 1 && forall k | 0 <= k <= |regions| :: bounds[k] == StartOf(regions, k)
  {
    seq(|regions| + 1, k requires 0 <= k <= |regions| => StartOf(regions, k))
  }

  /** The bytes of the regions, one after the other, are the document. */
  ghost predicate Tiles(document: string, regions: seq<Region>) {
    && StartOf(regions, |regions|) == |document|
    && forall k | 0 <= k < |regions| :: TileAt(document, regions, k)
  }

  ghost predicate TileAt(document: string, regions: seq<Region>, k: nat)
    requires k < |regions|
  {
    && StartOf(regions, k) < StartOf(regions, k + 1) <= |document|
    && document[StartOf(regions, k)..StartOf(regions, k + 1)] == regions[k].Bytes()
  }

  /** Up to region k the universe has exactly the bytes of its lines. */
  lemma {:induction false} UniverseStart(blank: string -> bool, lines: seq<string>, regions: seq<Region>, k: nat)
    requires IsUniverse(blank, lines, regions) && k <= |regions|
    ensures var end := if k == 0 then 0 else regions[k - 1].endLine;
      end <= |lines| && |Unlines(lines[..end])| == StartOf(regions, k)
    decreases k
  {
    if k > 0 {
      UniverseStart(blank, lines, regions, k - 1);
      assert RegionFits(blank, lines, regions, k - 1);
      var r := regions[k - 1];
      assert lines[..r.endLine] == lines[..r.startLine - 1] + r.lines;
      UnlinesSplits(lines[..r.startLine - 1], r.lines);
    }
  }

  lemma UniverseTile(blank: string -> bool, document: string, lines: seq<string>, regions: seq<Region>, k: nat)
    requires IsUniverse(blank, lines, regions) && Unlines(lines) == document && k < |regions|
    ensures TileAt(document, regions, k)
  {
    UniverseStart(blank, lines, regions, k);
    UniverseStart(blank, lines, regions, k + 1);
    assert RegionFits(blank, lines, regions, k);
    hide StartOf, Unlines;
    LinesTile(document, lines, regions, k, if k == 0 then 0 else regions[k - 1].endLine, regions[k].endLine);
  }

  lemma LinesTile(document: string, lines: seq<string>, regions: seq<Region>, k: nat, from: nat, to: nat)
    requires Unlines(lines) == document && k < |regions| && from < to <= |lines| && regions[k].lines == lines[from..to]
    requires StartOf(regions, k) == |Unlines(lines[..from])| && StartOf(regions, k + 1) == |Unlines(lines[..to])|
    ensures TileAt(document, regions, k)
  {
    UnlinesMiddle(lines, from, to);
    LinesHaveBytes(regions[k].lines);
    hide StartOf, Unlines;
  }

  lemma LinesHaveBytes(lines: seq<string>)
    requires lines != []
    ensures Unlines(lines) != ""
  {
  }

  lemma UnlinesMiddle(lines: seq<string>, from: nat, to: nat)
    requires from <= to <= |lines|
    ensures var a, b := |Unlines(lines[..from])|, |Unlines(lines[..to])|;
      a <= b <= |Unlines(lines)| && Unlines(lines)[a..b] == Unlines(lines[from..to])
  {
    hide Unlines;
    var front, middle, back := lines[..from], lines[from..to], lines[to..];
    assert lines == front + (middle + back) && lines[..to] == front + middle;
    UnlinesSplits(front, middle + back);
    UnlinesSplits(middle, back);
    UnlinesSplits(front, middle);
  }

  /** A line that is not blank leaves a payload in its region. */
  lemma {:induction false} NonblankHasPayload(blank: string -> bool, lines: seq<string>)
    requires (forall line :: Blank(line) ==> blank(line)) && Nonblank(blank, lines) > 0
    ensures !Blank(Unlines(lines))
    decreases |lines|
  {
    var init, last := lines[..|lines| - 1], lines[|lines| - 1];
    assert lines == init + [last];
    UnlinesSplits(init, [last]);
    var front, back := Unlines(init), Unlines([last]);
    if !blank(last) {
      assert !Blank(last);
      var i :| 0 <= i < |last| && !Whitespace(last[i]);
      assert back[i] == last[i];
      assert (front + back)[|front| + i] == last[i];
    } else {
      NonblankHasPayload(blank, init);
      var i :| 0 <= i < |front| && !Whitespace(front[i]);
      assert (front + back)[i] == front[i];
    }
  }

  /** The regions of a document cut it into parts that all have a payload. */
  lemma UniverseCuts(blank: string -> bool, document: string, lines: seq<string>, regions: seq<Region>)
    requires (forall line :: Blank(line) ==> blank(line)) && IsUniverse(blank, lines, regions) &&
               Unlines(lines) == document
    ensures Tiles(document, regions) && Cut(document, BoundsOf(regions))
  {
    hide Unlines, Blank;
    UniverseStart(blank, lines, regions, |regions|);
    assert lines[..|lines|] == lines;
    forall k | 0 <= k < |regions| ensures GoodRegion(document, regions, k) {
      UniverseRegion(blank, document, lines, regions, k);
    }
    assert regions != [];
    hide IsUniverse, TileAt;
    GoodRegionsCut(document, regions);
  }

  ghost predicate GoodRegion(document: string, regions: seq<Region>, k: nat)
    requires k < |regions|
  {
    TileAt(document, regions, k) && !Blank(document[StartOf(regions, k)..StartOf(regions, k + 1)])
  }

  lemma UniverseRegion(blank: string -> bool, document: string, lines: seq<string>, regions: seq<Region>, k: nat)
    requires (forall line :: Blank(line) ==> blank(line)) && IsUniverse(blank, lines, regions) &&
               Unlines(lines) == document
    requires k < |regions|
    ensures GoodRegion(document, regions, k)
  {
    hide Unlines, Blank;
    UniverseTile(blank, document, lines, regions, k);
    assert RegionFits(blank, lines, regions, k);
    NonblankHasPayload(blank, regions[k].lines);
  }

  lemma GoodRegionsCut(document: string, regions: seq<Region>)
    requires regions != [] && StartOf(regions, |regions|) == |document|
    requires forall k | 0 <= k < |regions| :: GoodRegion(document, regions, k)
    ensures Tiles(document, regions) && Cut(document, BoundsOf(regions))
  {
    hide Blank, TileAt;
    forall k | 0 <= k < |regions| ensures TileAt(document, regions, k) {
      assert GoodRegion(document, regions, k);
    }
    BoundsCut(document, regions, BoundsOf(regions));
  }

  lemma NothingBeforeFirst(regions: seq<Region>)
    ensures StartOf(regions, 0) == 0
  {
  }

  lemma BoundsCut(document: string, regions: seq<Region>, bounds: seq<nat>)
    requires regions != [] && StartOf(regions, |regions|) == |document| && |bounds| == |regions| + 1
    requires forall k | 0 <= k <= |regions| :: bounds[k] == StartOf(regions, k)
    requires forall k | 0 <= k < |regions| :: GoodRegion(document, regions, k)
    ensures Cut(document, bounds)
  {
    hide Blank, StartOf;
    forall k | 0 <= k < |bounds| - 1
      ensures bounds[k] < bounds[k + 1]
      ensures 0 <= bounds[k] <= bounds[k + 1] <= |document| ==> !Blank(document[bounds[k]..bounds[k + 1]])
    {
      assert GoodRegion(document, regions, k);
      assert bounds[k] == StartOf(regions, k) && bounds[k + 1] == StartOf(regions, k + 1);
    }
    NothingBeforeFirst(regions);
  }

  // ------------------------------------------------------------------ the split

  ghost predicate Ascending(ds: seq<Classification>) {
    && (forall d | d in ds :: 0 <= d.startByte < d.endByte)
    && (forall i, j | 0 <= i < j < |ds| :: ds[i].endByte <= ds[j].startByte)
  }

  lemma {:induction false} RestIsLater(document: string, ds: seq<Classification>, index: nat, lo: nat, hi: nat)
    requires lo <= hi <= |document| && index <= |ds| && forall i | index <= i < |ds| :: ds[i].startByte >= hi
    ensures Bucket(document, ds, lo, hi) == Bucket(document, ds[..index], lo, hi)
    decreases |ds|
  {
    if index < |ds| {
      var init := ds[..|ds| - 1];
      RestIsLater(document, init, index, lo, hi);
      assert init[..index] == ds[..index];
    } else {
      assert ds[..index] == ds;
    }
  }

  /** Collects the fragments of one region, from the first decision not yet
      finished, and stops at the decision that reaches beyond the region. */
  method FillBucket(document: string, bytes: string, lo: nat, hi: nat, ds: seq<Classification>, from: nat)
    returns (bucket: seq<Classification>, next: nat)
    requires lo <= hi <= |document| && bytes == document[lo..hi] && from <= |ds| && Ascending(ds)
    requires forall i | 0 <= i < from :: ds[i].endByte <= lo
    ensures bucket == Bucket(document, ds, lo, hi) && next <= |ds|
    ensures forall i | 0 <= i < |ds| :: ds[i].endByte <= hi <==> i < next
  {
    hide Bucket, Piece, Blank, Ascending, Clip;
    bucket, next := [], from;
    FinishedBefore(document, ds, from, lo, hi);
    ghost var taken: nat := from;
    while next < |ds| && ds[next].startByte < hi
      invariant from <= next == taken <= |ds| && bucket == Bucket(document, ds[..taken], lo, hi)
      invariant forall i | 0 <= i < next :: ds[i].endByte <= hi
    {
      var d := ds[next];
      TakeOne(document, ds, next, lo, hi);
      taken := taken + 1;
      if d.endByte <= lo {
        next := next + 1;
        continue;
      }
      var fragment := Clip(d, lo, hi);
      SameBytes(document, bytes, lo, hi, fragment);
      if fragment.startByte < fragment.endByte && !Blank(bytes[fragment.startByte - lo..fragment.endByte - lo]) {
        bucket := bucket + [fragment];
      }
      if d.endByte <= hi {
        next := next + 1;
      } else {
        break;
      }
    }
    StopsThere(ds, next, taken, hi);
    RestIsLater(document, ds, taken, lo, hi);
  }

  lemma FinishedBefore(document: string, ds: seq<Classification>, from: nat, lo: nat, hi: nat)
    requires lo <= hi <= |document| && from <= |ds| && forall i | 0 <= i < from :: ds[i].endByte <= lo
    ensures Bucket(document, ds[..from], lo, hi) == []
  {
    forall d | d in ds[..from] ensures d.endByte <= lo {
      var i :| 0 <= i < from && ds[..from][i] == d;
      assert ds[i] == d;
    }
    NothingBefore(document, ds[..from], lo, hi);
  }

  lemma TakeOne(document: string, ds: seq<Classification>, next: nat, lo: nat, hi: nat)
    requires lo <= hi <= |document| && next < |ds| && Ascending(ds) && ds[next].startByte < hi
    ensures var c, before := Clip(ds[next], lo, hi), Bucket(document, ds[..next], lo, hi);
      && (c.startByte < c.endByte ==> lo <= c.startByte < c.endByte <= hi)
      && (ds[next].endByte <= lo ==> c.startByte >= c.endByte)
      && Bucket(document, ds[..next + 1], lo, hi)
      == if c.startByte < c.endByte && !Blank(document[c.startByte..c.endByte]) then before + [c] else before
  {
    hide Blank;
    assert ds[next] in ds && ds[..next + 1][..next] == ds[..next];
  }

  lemma StopsThere(ds: seq<Classification>, next: nat, taken: nat, hi: nat)
    requires Ascending(ds) && next <= |ds|
    requires (taken == next && (next < |ds| ==> ds[next].startByte >= hi))
          || (taken == next + 1 && next < |ds| && ds[next].endByte > hi)
    ensures forall i | taken <= i < |ds| :: ds[i].startByte >= hi
    ensures forall i | next <= i < |ds| :: ds[i].endByte > hi
  {
    forall i | next <= i < |ds| ensures ds[i].endByte > hi && (taken <= i ==> ds[i].startByte >= hi) {
      assert ds[i] in ds && ds[next] in ds;
      if i > next {
        assert ds[next].endByte <= ds[i].startByte;
      }
    }
  }

  lemma SameBytes(document: string, bytes: string, lo: nat, hi: nat, fragment: Classification)
    requires lo <= hi <= |document| && bytes == document[lo..hi]
    ensures lo <= fragment.startByte <= fragment.endByte <= hi ==>
              bytes[fragment.startByte - lo..fragment.endByte - lo] == document[fragment.startByte..fragment.endByte]
  {
  }

  /** Assigns every decision to the regions it meets; a decision that reaches
      beyond the last region is an error. */
  method BuildRegistry(document: string, regions: seq<Region>, ds: seq<Classification>)
    returns (result: Result<seq<seq<Classification>>, RegistryError>)
    requires Tiles(document, regions) && Ascending(ds)
    ensures result.Ok? <==> forall d | d in ds :: d.endByte <= |document|
    ensures result.Ok? ==> IsSplit(document, regions, ds, result.value)
  {
    var buckets: seq<seq<Classification>>, decisionIndex: nat, regionStart: nat := [], 0, 0;
    for index := 0 to |regions|
      invariant regionStart == StartOf(regions, index) <= |document| && |buckets| == index && decisionIndex <= |ds|
      invariant forall i | 0 <= i < |ds| :: ds[i].endByte <= regionStart <==> i < decisionIndex
      invariant forall k | 0 <= k < index :: SplitAt(document, regions, ds, buckets, k)
    {
      assert TileAt(document, regions, index);
      var bytes := regions[index].Bytes();
      var regionEnd := regionStart + |bytes|;
      var bucket;
      bucket, decisionIndex := FillBucket(document, bytes, regionStart, regionEnd, ds, decisionIndex);
      ghost var before := buckets;
      buckets := buckets + [bucket];
      forall k | 0 <= k <= index ensures SplitAt(document, regions, ds, buckets, k) {
        if k < index {
          assert SplitAt(document, regions, ds, before, k);
        }
      }
      regionStart := regionEnd;
    }
    if decisionIndex != |ds| {
      assert ds[decisionIndex] in ds;
      return Err(Unassigned(ds[decisionIndex]));
    }
    return Ok(buckets);
  }

  ghost predicate SplitAt(document: string, regions: seq<Region>, ds: seq<Classification>,
                          buckets: seq<seq<Classification>>, k: nat)
    requires k < |regions| && k < |buckets|
  {
    && StartOf(regions, k) <= StartOf(regions, k + 1) <= |document|
    && buckets[k] == Bucket(document, ds, StartOf(regions, k), StartOf(regions, k + 1))
  }

  /** Each region keeps exactly its fragments with a payload. */
  ghost predicate IsSplit(document: string, regions: seq<Region>, ds: seq<Classification>,
                          buckets: seq<seq<Classification>>)
  {
    |buckets| == |regions| && forall k | 0 <= k < |regions| :: SplitAt(document, regions, ds, buckets, k)
  }
}
