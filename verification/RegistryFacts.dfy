/** What holds of the receipts that the split produces. */
module RegistryFacts {
  import opened Markers
  import opened Materialize
  import opened Fragments
  import opened Coverage
  import opened Regions
  import opened Registry

  // ------------------------------------------------------------ one region's bucket

  /** Every kept fragment is a fragment of some decision. */
  lemma {:induction false} BucketFrom(document: string, ds: seq<Classification>, lo: nat, hi: nat, c: Classification)
    returns (d: Classification)
    requires lo <= hi <= |document| && c in Bucket(document, ds, lo, hi)
    ensures d in ds && Piece(document, d, lo, hi) == [c]
    decreases |ds|
  {
    var last := ds[|ds| - 1];
    if c in Piece(document, last, lo, hi) {
      d := last;
    } else {
      d := BucketFrom(document, ds[..|ds| - 1], lo, hi, c);
    }
  }

  lemma {:induction false} PieceIsKept(document: string, ds: seq<Classification>, lo: nat, hi: nat, d: Classification)
    requires lo <= hi <= |document| && d in ds
    ensures forall c | c in Piece(document, d, lo, hi) :: c in Bucket(document, ds, lo, hi)
    decreases |ds|
  {
    if d != ds[|ds| - 1] {
      assert d in ds[..|ds| - 1];
      PieceIsKept(document, ds[..|ds| - 1], lo, hi, d);
    }
  }

  /** A payload byte of a decision inside a region keeps its fragment there. */
  lemma ByteIsKept(document: string, ds: seq<Classification>, lo: nat, hi: nat, d: Classification, p: nat)
    requires lo <= p < hi <= |document| && !Whitespace(document[p]) && d in ds && d.startByte <= p < d.endByte
    ensures Clip(d, lo, hi) in Bucket(document, ds, lo, hi)
  {
    var c := Clip(d, lo, hi);
    assert document[c.startByte..c.endByte][p - c.startByte] == document[p];
    assert Piece(document, d, lo, hi) == [c];
    PieceIsKept(document, ds, lo, hi, d);
  }

  ghost predicate FragmentOf(document: string, c: Classification, lo: nat, hi: nat)
    requires lo <= hi <= |document|
  {
    lo <= c.startByte < c.endByte <= hi && !Blank(document[c.startByte..c.endByte])
  }

  lemma PieceIsFragment(document: string, d: Classification, lo: nat, hi: nat, c: Classification)
    requires lo <= hi <= |document| && Piece(document, d, lo, hi) == [c]
    ensures FragmentOf(document, c, lo, hi) && SameLabel(c, d) && d.startByte <= c.startByte && c.endByte <= d.endByte
  {
  }

  lemma {:induction false} BucketAscends(document: string, ds: seq<Classification>, lo: nat, hi: nat)
    requires lo <= hi <= |document| && Ascending(ds)
    ensures Ascending(Bucket(document, ds, lo, hi))
    ensures forall c | c in Bucket(document, ds, lo, hi) :: FragmentOf(document, c, lo, hi)
    decreases |ds|
  {
    if ds != [] {
      var init, d := ds[..|ds| - 1], ds[|ds| - 1];
      assert Ascending(init) by { assert forall c | c in init :: c in ds; }
      BucketAscends(document, init, lo, hi);
      var before, piece := Bucket(document, init, lo, hi), Piece(document, d, lo, hi);
      if piece != [] {
        PieceIsFragment(document, d, lo, hi, piece[0]);
        forall c | c in before ensures c.endByte <= piece[0].startByte {
          EndsBefore(document, ds, lo, hi, c);
        }
        AscendThen(before, piece[0]);
        assert piece == [piece[0]];
      }
    }
  }

  lemma EndsBefore(document: string, ds: seq<Classification>, lo: nat, hi: nat, c: Classification)
    requires lo <= hi <= |document| && ds != [] && Ascending(ds) && c in Bucket(document, ds[..|ds| - 1], lo, hi)
    ensures c.endByte <= ds[|ds| - 1].startByte
  {
    var init := ds[..|ds| - 1];
    var d := BucketFrom(document, init, lo, hi, c);
    PieceIsFragment(document, d, lo, hi, c);
    var i :| 0 <= i < |init| && init[i] == d;
    assert ds[i].endByte <= ds[|ds| - 1].startByte;
  }

  lemma AscendThen(cs: seq<Classification>, c: Classification)
    requires Ascending(cs) && 0 <= c.startByte < c.endByte && forall x | x in cs :: x.endByte <= c.startByte
    ensures Ascending(cs + [c])
  {
    assert forall i | 0 <= i < |cs| :: cs[i] in cs;
  }

  ghost predicate ValidLabels(ds: seq<Classification>) {
    forall d | d in ds :: ValidKind(d)
  }

  /** With complete coverage and valid labels no receipt is left pending. */
  lemma BucketIsValid(document: string, ds: seq<Classification>, lo: nat, hi: nat)
    requires lo <= hi <= |document| && Ascending(ds) && ValidLabels(ds) && !Blank(document[lo..hi])
    requires PayloadCovered(document, ds, 0, |document|)
    ensures RegionValid(document, Bucket(document, ds, lo, hi), lo, hi, true)
  {
    var bucket := Bucket(document, ds, lo, hi);
    BucketAscends(document, ds, lo, hi);
    forall c | c in bucket ensures ValidKind(c) && HasPayload(document, c) && lo <= c.startByte < c.endByte <= hi {
      var d := BucketFrom(document, ds, lo, hi, c);
      PieceIsFragment(document, d, lo, hi, c);
      assert FragmentOf(document, c, lo, hi);
    }
    forall p | lo <= p < hi && !Whitespace(document[p]) ensures CoveredBy(bucket, p) {
      assert CoveredBy(ds, p);
      var d :| d in ds && d.startByte <= p < d.endByte;
      ByteIsKept(document, ds, lo, hi, d, p);
      assert Clip(d, lo, hi).startByte <= p < Clip(d, lo, hi).endByte;
    }
    var i :| 0 <= i < |document[lo..hi]| && !Whitespace(document[lo..hi][i]);
    assert document[lo..hi][i] == document[lo + i];
    assert CoveredBy(bucket, lo + i);
    assert bucket != [];
  }

  // ------------------------------------------------------------ the whole registry

  function FlattenFrom(buckets: seq<seq<Classification>>, k: nat): seq<Classification>
    requires k <= |buckets|
    decreases |buckets| - k
  {
    if k == |buckets| then [] else buckets[k] + FlattenFrom(buckets, k + 1)
  }

  lemma {:induction false} SplitIsFlat(document: string, regions: seq<Region>, ds: seq<Classification>,
                                       buckets: seq<seq<Classification>>, k: nat)
    requires IsSplit(document, regions, ds, buckets) && Bounds(document, BoundsOf(regions)) && k <= |regions|
    ensures FlattenFrom(buckets, k) == Flat(document, ds, BoundsOf(regions), k)
    decreases |regions| - k
  {
    if k < |regions| {
      assert SplitAt(document, regions, ds, buckets, k);
      SplitIsFlat(document, regions, ds, buckets, k + 1);
    }
  }

  lemma {:induction false} FlatAscends(document: string, ds: seq<Classification>, bounds: seq<nat>, k: nat)
    requires Bounds(document, bounds) && Ascending(ds) && k < |bounds|
    ensures Ascending(Flat(document, ds, bounds, k))
    ensures forall c | c in Flat(document, ds, bounds, k) :: bounds[k] <= c.startByte
    decreases |bounds| - k
  {
    if k + 1 < |bounds| {
      BucketAscends(document, ds, bounds[k], bounds[k + 1]);
      FlatAscends(document, ds, bounds, k + 1);
      var bucket, rest := Bucket(document, ds, bounds[k], bounds[k + 1]), Flat(document, ds, bounds, k + 1);
      forall c | c in bucket ensures bounds[k] <= c.startByte && c.endByte <= bounds[k + 1] {
        assert FragmentOf(document, c, bounds[k], bounds[k + 1]);
      }
      AscendBoth(bucket, rest, bounds[k + 1]);
    }
  }

  lemma AscendBoth(a: seq<Classification>, b: seq<Classification>, at: nat)
    requires Ascending(a) && Ascending(b) && (forall c | c in a :: c.endByte <= at) &&
               (forall c | c in b :: at <= c.startByte)
    ensures Ascending(a + b)
  {
    var all := a + b;
    forall i, j | 0 <= i < j < |all| ensures all[i].endByte <= all[j].startByte {
      assert i < |a| ==> a[i] in a;
      assert j >= |a| ==> b[j - |a|] in b;
    }
  }

  lemma AscendingIsInOrder(cs: seq<Classification>)
    requires Ascending(cs)
    ensures Sorted(cs) && Disjoint(cs)
  {
    forall i, j | 0 <= i < j < |cs| ensures !Earlier(cs[j], cs[i]) {
      assert cs[i] in cs && cs[j] in cs;
    }
  }

  lemma DecidedAscends(document: string, ds: seq<Classification>)
    requires Decided(document, ds)
    ensures Ascending(ds)
  {
    forall d | d in ds ensures 0 <= d.startByte < d.endByte {
      assert HasPayload(document, d);
    }
    forall i, j | 0 <= i < j < |ds| ensures ds[i].endByte <= ds[j].startByte {
      assert Apart(ds[i], ds[j]);
    }
  }

  /** The receipts of a split amount to one classification per decision, with
      nothing but blank ends beside region boundaries trimmed. */
  lemma SplitIsOrdered(document: string, regions: seq<Region>, ds: seq<Classification>,
                       buckets: seq<seq<Classification>>)
    requires Cut(document, BoundsOf(regions)) && Decided(document, ds) && IsSplit(document, regions, ds, buckets)
    ensures (forall d | d in ds :: Inside(document, d))
    ensures JoinAll([], SortDecisions(FlattenFrom(buckets, 0))) == TrimAll(document, ds, BoundsOf(regions))
  {
    hide Cut, Decided, IsSplit, Flat, JoinAll, SortDecisions, FlattenFrom, Ascending, Sorted;
    var bounds := BoundsOf(regions);
    CutHasBounds(document, bounds);
    SplitIsFlat(document, regions, ds, buckets, 0);
    DecidedAscends(document, ds);
    DecidedIsInside(document, ds);
    FlatAscends(document, ds, bounds, 0);
    AscendingIsInOrder(Flat(document, ds, bounds, 0));
    SortedStays(Flat(document, ds, bounds, 0));
    SplitThenMerge(document, ds, bounds);
  }

  lemma DecidedIsInside(document: string, ds: seq<Classification>)
    requires Decided(document, ds)
    ensures forall d | d in ds :: Inside(document, d)
  {
    forall d | d in ds ensures Inside(document, d) {
      assert HasPayload(document, d);
    }
  }

  ghost predicate NothingPending(document: string, regions: seq<Region>, buckets: seq<seq<Classification>>) {
    |buckets| == |regions| && forall k | 0 <= k < |regions| :: ReceiptValid(document, regions, buckets, k)
  }

  ghost predicate ReceiptValid(document: string, regions: seq<Region>, buckets: seq<seq<Classification>>, k: nat)
    requires k < |regions| && k < |buckets|
  {
    && StartOf(regions, k) <= StartOf(regions, k + 1) <= |document|
    && RegionValid(document, buckets[k], StartOf(regions, k), StartOf(regions, k + 1), true)
  }

  /** The split leaves nothing pending exactly when all labels are valid. */
  lemma PendingIffInvalidLabel(document: string, regions: seq<Region>, ds: seq<Classification>,
                               buckets: seq<seq<Classification>>)
    requires Cut(document, BoundsOf(regions)) && Decided(document, ds) && PayloadCovered(document, ds, 0, |document|)
    requires IsSplit(document, regions, ds, buckets)
    ensures NothingPending(document, regions, buckets) <==> ValidLabels(ds)
  {
    hide Bucket, PayloadCovered, RegionValid;
    DecidedAscends(document, ds);
    var bounds := BoundsOf(regions);
    if ValidLabels(ds) {
      forall k | 0 <= k < |regions| ensures ReceiptValid(document, regions, buckets, k) {
        assert SplitAt(document, regions, ds, buckets, k);
        assert bounds[k] < bounds[k + 1];
        BucketIsValid(document, ds, bounds[k], bounds[k + 1]);
      }
    }
    if NothingPending(document, regions, buckets) {
      forall d | d in ds ensures ValidKind(d) {
        LabelIsChecked(document, regions, ds, buckets, d);
      }
    }
  }

  lemma LabelIsChecked(document: string, regions: seq<Region>, ds: seq<Classification>,
                       buckets: seq<seq<Classification>>, d: Classification)
    requires Cut(document, BoundsOf(regions)) && Decided(document, ds) && d in ds
    requires IsSplit(document, regions, ds, buckets) && NothingPending(document, regions, buckets)
    ensures ValidKind(d)
  {
    hide Bucket;
    assert HasPayload(document, d);
    var text := document[d.startByte..d.endByte];
    var i :| 0 <= i < |text| && !Whitespace(text[i]);
    var p: nat := d.startByte + i;
    assert document[p] == text[i];
    var bounds := BoundsOf(regions);
    var k := RegionOf(document, bounds, p, 0);
    CutHasBounds(document, bounds);
    assert SplitAt(document, regions, ds, buckets, k) && ReceiptValid(document, regions, buckets, k);
    ByteIsKept(document, ds, bounds[k], bounds[k + 1], d, p);
    var c := Clip(d, bounds[k], bounds[k + 1]);
    assert c in buckets[k];
    assert ValidKind(c);
  }

  // ---------------------------------------------------------------- the marker input

  lemma {:induction false} AscendingIsPlaced(document: string, cs: seq<Classification>, cursor: int)
    requires Ascending(cs) && (forall c | c in cs :: c.endByte <= |document|)
    requires 0 <= cursor <= |document| && (cs != [] ==> cursor <= cs[0].startByte)
    ensures Placed(document, cs, cursor)
    decreases |cs|
  {
    if cs != [] {
      assert cs[0] in cs;
      var rest := cs[1..];
      assert forall c | c in rest :: c in cs;
      if rest != [] {
        assert cs[0].endByte <= cs[1].startByte;
      }
      AscendingIsPlaced(document, rest, cs[0].endByte);
    }
  }

  /** The ordered classifications can be printed and read back. */
  lemma TrimmedIsReadable(document: string, ds: seq<Classification>, bounds: seq<nat>)
    requires Cut(document, bounds) && Decided(document, ds) && ValidLabels(ds) && DistinctAnchors(ds)
    requires forall d | d in ds :: Inside(document, d)
    ensures Readable(document, TrimAll(document, ds, bounds), 0, {})
  {
    hide Cut, Trim, Blank;
    var out := TrimAll(document, ds, bounds);
    forall i | 0 <= i < |ds| ensures TrimmedFrom(document, out[i], ds[i]) {
      assert ds[i] in ds && HasPayload(document, ds[i]);
      TrimKeepsPayload(document, ds[i], bounds);
    }
    TrimmedIsAscending(document, ds, out);
    AscendingIsPlaced(document, out, 0);
    TrimmedIsLabelled(document, ds, out);
  }

  ghost predicate TrimmedFrom(document: string, t: Classification, d: Classification) {
    SameLabel(t, d) && d.startByte <= t.startByte < t.endByte <= d.endByte && HasPayload(document, t)
  }

  lemma TrimmedIsAscending(document: string, ds: seq<Classification>, out: seq<Classification>)
    requires Decided(document, ds) && |out| == |ds| && forall i | 0 <= i < |ds| :: TrimmedFrom(document, out[i], ds[i])
    ensures Ascending(out) && forall c | c in out :: HasPayload(document, c)
  {
    DecidedAscends(document, ds);
    forall i, j | 0 <= i < j < |out| ensures out[i].endByte <= out[j].startByte {
      assert TrimmedFrom(document, out[i], ds[i]) && TrimmedFrom(document, out[j], ds[j]);
    }
    forall c | c in out ensures HasPayload(document, c) {
      var i :| 0 <= i < |out| && out[i] == c;
      assert TrimmedFrom(document, out[i], ds[i]);
    }
  }

  lemma TrimmedIsLabelled(document: string, ds: seq<Classification>, out: seq<Classification>)
    requires |out| == |ds| && forall i | 0 <= i < |ds| :: TrimmedFrom(document, out[i], ds[i])
    ensures ValidLabels(ds) ==> Labelled(document, out)
    ensures DistinctAnchors(ds) <==> DistinctAnchors(out)
  {
    forall c | c in out ensures HasPayload(document, c) && (ValidLabels(ds) ==> ValidKind(c)) {
      var i :| 0 <= i < |out| && out[i] == c;
      assert TrimmedFrom(document, out[i], ds[i]) && ds[i] in ds;
    }
    forall i, j | 0 <= i < j < |ds| ensures SameLabel(out[i], ds[i]) && SameLabel(out[j], ds[j]) {
      assert TrimmedFrom(document, out[i], ds[i]) && TrimmedFrom(document, out[j], ds[j]);
    }
  }
}
