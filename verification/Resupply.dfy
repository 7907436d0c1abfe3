/** When a ledger can be updated at all: what can be supplied between the
    decisions that were carried over, and what the check asks for. */
module Resupply {
  import opened Markers
  import opened Materialize
  import opened Fragments
  import opened Coverage
  import opened Regions
  import opened Registry
  import opened RegistryFacts
  import opened Regeneration
  import opened DocumentDiff
  import opened Transport
  import opened Ledger

  // ------------------------------------------------------ what is free to supply

  ghost predicate Free(cs: seq<Classification>, lo: int, hi: int) {
    forall c | c in cs :: c.endByte <= lo || hi <= c.startByte
  }

  /** A stretch of the document with a payload that no decision overlaps. */
  ghost predicate FreeStretch(document: string, cs: seq<Classification>, lo: int, hi: int) {
    0 <= lo < hi <= |document| && !Blank(document[lo..hi]) && Free(cs, lo, hi)
  }

  /** Some free stretch touches the gap, as the check means it. */
  ghost predicate Suppliable(document: string, cs: seq<Classification>, gap: Gap) {
    exists lo, hi :: FreeStretch(document, cs, lo, hi) && lo < gap.end && hi > gap.start
  }

  /** A decision over the stretch, unless that holds no payload. */
  function Hole(document: string, lo: int, hi: int): seq<Classification> {
    if 0 <= lo < hi <= |document| && !Blank(document[lo..hi]) then [Classification(lo, hi, NonNormative, "")] else []
  }

  /** One decision for every stretch ahead of, between and behind those in place. */
  function Holes(document: string, cs: seq<Classification>, cursor: int): seq<Classification> {
    if cs == [] then Hole(document, cursor, |document|)
    else Hole(document, cursor, cs[0].startByte) + Holes(document, cs[1..], cs[0].endByte)
  }

  ghost predicate IsHole(document: string, cs: seq<Classification>, h: Classification) {
    h.kind == NonNormative && h.markerId == "" && FreeStretch(document, cs, h.startByte, h.endByte)
  }

  lemma PlacedBehind(document: string, cs: seq<Classification>, cursor: int)
    requires Placed(document, cs, cursor)
    ensures forall c | c in cs :: cursor <= c.startByte < c.endByte <= |document|
    decreases |cs|
  {
    if cs != [] {
      PlacedBehind(document, cs[1..], cs[0].endByte);
    }
  }

  lemma {:induction false} HolesAre(document: string, cs: seq<Classification>, cursor: int)
    requires Placed(document, cs, cursor)
    ensures var hs := Holes(document, cs, cursor);
      Ascending(hs) && forall h | h in hs :: cursor <= h.startByte && IsHole(document, cs, h)
    decreases |cs|
  {
    if cs != [] {
      var first, rest := Hole(document, cursor, cs[0].startByte), Holes(document, cs[1..], cs[0].endByte);
      HolesAre(document, cs[1..], cs[0].endByte);
      PlacedBehind(document, cs, cursor);
      PlacedBehind(document, cs[1..], cs[0].endByte);
      hide Blank;
      assert cs == [cs[0]] + cs[1..];
      AscendBoth(first, rest, cs[0].startByte);
    }
  }

  /** Every free stretch lies in one of the holes. */
  lemma {:induction false} HoleAround(document: string, cs: seq<Classification>, cursor: int, lo: int, hi: int)
    requires Placed(document, cs, cursor) && cursor <= lo && FreeStretch(document, cs, lo, hi)
    ensures exists h | h in Holes(document, cs, cursor) :: h.startByte <= lo && hi <= h.endByte
    decreases |cs|
  {
    var to := if cs == [] then |document| else cs[0].startByte;
    if hi <= to {
      BlankParts(document, cursor, lo, to);
      BlankParts(document, lo, hi, to);
      assert Hole(document, cursor, to)[0] in Holes(document, cs, cursor);
    } else {
      assert cs[0] in cs;
      HoleAround(document, cs[1..], cs[0].endByte, lo, hi);
    }
  }

  /** A gap can be supplied exactly when one of the holes touches it. */
  lemma SuppliableIff(document: string, cs: seq<Classification>, gap: Gap)
    requires Placed(document, cs, 0)
    ensures Suppliable(document, cs, gap) <==> IsSupplied(gap, Holes(document, cs, 0))
  {
    HolesAre(document, cs, 0);
    hide Placed, Holes, Blank;
    if Suppliable(document, cs, gap) {
      var lo, hi :| FreeStretch(document, cs, lo, hi) && lo < gap.end && hi > gap.start;
      HoleAround(document, cs, 0, lo, hi);
    }
    if IsSupplied(gap, Holes(document, cs, 0)) {
      var h :| h in Holes(document, cs, 0) && h.startByte < gap.end && h.endByte > gap.start;
      assert FreeStretch(document, cs, h.startByte, h.endByte);
    }
  }

  // ---------------------------------------------------------- what was carried over

  /** What was carried over from in front of a clean decision stays in front of it. */
  lemma ShiftedStaysBehind(oldDocument: string, newDocument: string, init: seq<Classification>, d: Classification,
                           edits: seq<ByteEdit>)
    requires Patches(edits, oldDocument, newDocument) && IsClean(d, edits) && HasPayload(oldDocument, d)
    requires forall c | c in init :: HasPayload(oldDocument, c) && c.endByte <= d.startByte
    ensures forall m | m in Shifted(oldDocument, init, edits) :: m.endByte <= Moved(d, edits).startByte
  {
    hide Patches, Mapped, Dirty, Blank, Shifted;
    ShiftedAre(oldDocument, init, edits);
    forall m | m in Shifted(oldDocument, init, edits) ensures m.endByte <= Moved(d, edits).startByte {
      var c :| c in init && IsClean(c, edits) && m == Moved(c, edits);
      TransportKeepsOrder(edits, oldDocument, newDocument, c.startByte, c.endByte, d.startByte, d.endByte);
    }
  }

  lemma {:induction false} ShiftedAscends(oldDocument: string, newDocument: string, ds: seq<Classification>,
                                          edits: seq<ByteEdit>)
    requires Patches(edits, oldDocument, newDocument) && Decided(oldDocument, ds)
    requires forall d | d in ds :: HasPayload(oldDocument, d)
    ensures Ascending(Shifted(oldDocument, ds, edits))
    decreases |ds|
  {
    if ds != [] {
      hide Patches, Mapped, Dirty, Blank;
      var init, d := ds[..|ds| - 1], ds[|ds| - 1];
      assert ds == init + [d] && HasPayload(oldDocument, d);
      ShiftedAscends(oldDocument, newDocument, init, edits);
      if IsClean(d, edits) {
        forall c | c in init ensures c.endByte <= d.startByte {
          var i :| 0 <= i < |init| && init[i] == c;
          assert Apart(ds[i], ds[|ds| - 1]) && HasPayload(oldDocument, c);
        }
        ShiftedStaysBehind(oldDocument, newDocument, init, d, edits);
        CleanArrives(oldDocument, newDocument, d, edits);
        AscendThen(Shifted(oldDocument, init, edits), Moved(d, edits));
      }
    }
  }

  lemma ShiftedIsPlaced(oldDocument: string, newDocument: string, ds: seq<Classification>, edits: seq<ByteEdit>)
    requires Patches(edits, oldDocument, newDocument) && Decided(oldDocument, ds)
    requires forall d | d in ds :: HasPayload(oldDocument, d)
    ensures Placed(newDocument, Shifted(oldDocument, ds, edits), 0)
  {
    hide Patches, Shifted, Placed, Blank;
    var shifted := Shifted(oldDocument, ds, edits);
    ShiftedAscends(oldDocument, newDocument, ds, edits);
    ShiftedHavePayload(oldDocument, newDocument, ds, edits);
    forall c | c in shifted ensures c.endByte <= |newDocument| {
      assert HasPayload(newDocument, c);
    }
    if shifted != [] {
      assert shifted[0] in shifted;
    }
    AscendingIsPlaced(newDocument, shifted, 0);
  }

  lemma ShiftedLabels(document: string, ds: seq<Classification>, edits: seq<ByteEdit>)
    requires ValidLabels(ds) && forall d | d in ds :: HasPayload(document, d)
    ensures ValidLabels(Shifted(document, ds, edits))
  {
    hide Mapped, Dirty, HasPayload, Shifted, MarkerId;
    ShiftedAre(document, ds, edits);
  }

  lemma {:induction false} ShiftedAnchors(document: string, ds: seq<Classification>, edits: seq<ByteEdit>)
    requires DistinctAnchors(ds) && forall d | d in ds :: HasPayload(document, d)
    ensures DistinctAnchors(Shifted(document, ds, edits))
    decreases |ds|
  {
    hide Mapped, Dirty, Blank, DistinctAnchors;
    if ds == [] {
      NoAnchors();
    } else {
      var init, d := ds[..|ds| - 1], ds[|ds| - 1];
      assert ds == init + [d];
      AnchorsOfFront(init, d);
      ShiftedAnchors(document, init, edits);
      var before := Shifted(document, init, edits);
      assert before + [] == before;
      if IsClean(d, edits) {
        ShiftedAre(document, init, edits);
        forall m | m in before && m.kind == Anchor && d.kind == Anchor ensures m.markerId != d.markerId {
          var c :| c in init && IsClean(c, edits) && m == Moved(c, edits);
        }
        MovedLabel(d, edits);
        OneMoreDistinct(before, Moved(d, edits));
      }
    }
  }

  lemma NoAnchors()
    ensures DistinctAnchors([])
  {
  }

  lemma MovedLabel(d: Classification, edits: seq<ByteEdit>)
    requires IsClean(d, edits)
    ensures 0 <= d.startByte && 0 <= d.endByte && SameLabel(Moved(d, edits), d)
  {
  }

  lemma AnchorsOfFront(init: seq<Classification>, d: Classification)
    requires DistinctAnchors(init + [d])
    ensures DistinctAnchors(init)
    ensures forall c | c in init && c.kind == Anchor && d.kind == Anchor :: c.markerId != d.markerId
  {
    var ds := init + [d];
    forall i, j | 0 <= i < j < |init| && init[i].kind == Anchor && init[j].kind == Anchor
      ensures init[i].markerId != init[j].markerId
    {
      assert ds[i] == init[i] && ds[j] == init[j];
    }
    forall c | c in init && c.kind == Anchor && d.kind == Anchor ensures c.markerId != d.markerId {
      var k :| 0 <= k < |init| && init[k] == c;
      assert ds[k] == c && ds[|init|] == d;
    }
  }

  lemma OneMoreDistinct(cs: seq<Classification>, c: Classification)
    requires DistinctAnchors(cs) && forall x | x in cs && x.kind == Anchor && c.kind == Anchor ::
               x.markerId != c.markerId
    ensures DistinctAnchors(cs + [c])
  {
  }

  // ------------------------------------------------------- what the holes complete

  /** The decisions carried over and the holes between them. */
  lemma HolesComplete(document: string, cs: seq<Classification>)
    requires Placed(document, cs, 0) && Ascending(cs)
    ensures var all := cs + Holes(document, cs, 0);
      && (forall c | c in all :: 0 <= c.startByte < c.endByte <= |document|)
      && Disjoint(all) && PayloadCovered(document, all, 0, |document|)
  {
    var hs := Holes(document, cs, 0);
    var all := cs + hs;
    HolesAre(document, cs, 0);
    PlacedBehind(document, cs, 0);
    hide Placed, Holes;
    forall i, j | 0 <= i < j < |all| ensures all[i].endByte <= all[j].startByte || all[j].endByte <= all[i].startByte {
      if i < |cs| <= j {
        assert cs[i] in cs && hs[j - |cs|] in hs && IsHole(document, cs, hs[j - |cs|]);
      } else if j >= |cs| {
        assert hs[i - |cs|].endByte <= hs[j - |cs|].startByte;
      }
    }
    forall p | 0 <= p < |document| && !Whitespace(document[p]) ensures CoveredBy(all, p) {
      if exists c | c in cs :: c.startByte <= p < c.endByte {
        var c :| c in cs && c.startByte <= p < c.endByte;
        assert c in all;
      } else {
        assert document[p..p + 1][0] == document[p];
        assert FreeStretch(document, cs, p, p + 1);
        HoleAround(document, cs, 0, p, p + 1);
        var h :| h in hs && h.startByte <= p && p + 1 <= h.endByte;
        assert h in all;
      }
    }
  }

  lemma DisjointPair(cs: seq<Classification>, k: nat, l: nat)
    requires Disjoint(cs) && k < |cs| && l < |cs| && k != l
    ensures cs[k].endByte <= cs[l].startByte || cs[l].endByte <= cs[k].startByte
  {
  }

  /** Sorting keeps what lies apart apart, and puts it in line. */
  lemma SortedInLine(cs: seq<Classification>)
    requires Disjoint(cs) && forall c | c in cs :: c.startByte < c.endByte
    ensures Disjoint(SortDecisions(cs)) && InLine(SortDecisions(cs))
  {
    hide SortDecisions;
    var sorted := SortDecisions(cs);
    SortIsSorted(cs);
    SameMembers(cs, sorted);
    forall i, j | 0 <= i < j < |sorted|
      ensures sorted[i].endByte <= sorted[j].startByte || sorted[j].endByte <= sorted[i].startByte
      ensures sorted[i].endByte <= sorted[j].startByte
    {
      var k, l := TwoPlaces(sorted, cs, i, j);
      assert sorted[i] in sorted && sorted[j] in sorted && !Earlier(sorted[j], sorted[i]);
      DisjointPair(cs, k, l);
    }
  }

  lemma SortedIsComplete(document: string, cs: seq<Classification>)
    requires (forall c | c in cs :: 0 <= c.startByte < c.endByte <= |document|)
    requires Disjoint(cs) && PayloadCovered(document, cs, 0, |document|)
    ensures CompletelyCovers(document, SortDecisions(cs))
  {
    hide SortDecisions;
    var sorted := SortDecisions(cs);
    SortIsSorted(cs);
    SameMembers(cs, sorted);
    SortedInLine(cs);
    forall p | 0 <= p < |document| && !Whitespace(document[p]) ensures CoveredBy(sorted, p) {
      assert CoveredBy(cs, p);
      var c :| c in cs && c.startByte <= p < c.endByte;
      assert c in sorted;
    }
  }

  // --------------------------------------------------------- anchors of the merged

  lemma SortedAnchors(cs: seq<Classification>)
    requires DistinctAnchors(cs)
    ensures DistinctAnchors(SortDecisions(cs))
  {
    hide SortDecisions;
    var sorted := SortDecisions(cs);
    SortIsSorted(cs);
    forall i, j | 0 <= i < j < |sorted| && sorted[i].kind == Anchor && sorted[j].kind == Anchor
      ensures sorted[i].markerId != sorted[j].markerId
    {
      var k, l := TwoPlaces(sorted, cs, i, j);
      assert cs[k] == sorted[i] && cs[l] == sorted[j];
    }
  }

  lemma {:induction false} JoinedAnchors(merged: seq<Classification>, cs: seq<Classification>)
    requires DistinctAnchors(merged + cs)
    ensures DistinctAnchors(JoinAll(merged, cs))
    decreases |cs|
  {
    if cs == [] {
      assert merged + cs == merged;
    } else {
      assert cs == [cs[0]] + cs[1..];
      JoinKeepsAnchors(merged, cs[0], cs[1..]);
      JoinedAnchors(Join(merged, cs[0]), cs[1..]);
    }
  }

  lemma JoinKeepsAnchors(merged: seq<Classification>, c: Classification, rest: seq<Classification>)
    requires DistinctAnchors(merged + ([c] + rest))
    ensures DistinctAnchors(Join(merged, c) + rest)
  {
    var all, after := merged + ([c] + rest), Join(merged, c) + rest;
    if Join(merged, c) == merged + [c] {
      assert after == all;
    } else {
      forall i, j | 0 <= i < j < |after| && after[i].kind == Anchor && after[j].kind == Anchor
        ensures after[i].markerId != after[j].markerId
      {
        var k, l := if i < |merged| then i else i + 1, if j < |merged| then j else j + 1;
        assert SameLabel(after[i], all[k]) && SameLabel(after[j], all[l]);
      }
    }
  }

  // ---------------------------------------------------------------- the theorem

  /** A supplied decision lies in a free stretch, and touches what it supplies. */
  lemma DeltaIsFree(document: string, cs: seq<Classification>, delta: seq<Classification>, d: Classification)
    requires DeltaValid(document, delta, cs) && d in delta && forall c | c in cs :: c.startByte < c.endByte
    ensures FreeStretch(document, cs, d.startByte, d.endByte)
  {
    hide SortDecisions, InLine, Blank;
    var ordered := SortDecisions(delta);
    SortIsSorted(delta);
    SameMembers(delta, ordered);
    DeltaHasPayload(document, delta, cs);
    assert HasPayload(document, d) && d in ordered;
    var all := cs + ordered;
    forall x | x in all ensures x.startByte < x.endByte {
      if x in ordered {
        assert x in delta && HasPayload(document, x);
      }
    }
    var k :| 0 <= k < |ordered| && ordered[k] == d;
    forall c | c in cs ensures c.endByte <= d.startByte || d.endByte <= c.startByte {
      var i :| 0 <= i < |cs| && cs[i] == c;
      assert all[i] == c && all[|cs| + k] == d;
      InLineApart(all, i, |cs| + k, if c.startByte < d.startByte then d.startByte else c.startByte);
    }
  }

  /** The holes are a valid delta. */
  lemma HolesAreValid(document: string, cs: seq<Classification>)
    requires Placed(document, cs, 0) && Ascending(cs)
    ensures DeltaValid(document, Holes(document, cs, 0), cs)
  {
    hide SortDecisions, Blank;
    var hs := Holes(document, cs, 0);
    HolesAre(document, cs, 0);
    HolesComplete(document, cs);
    hide Placed, Holes;
    AscendingIsInOrder(hs);
    SortedStays(hs);
    SortedInLine(cs + hs);
    forall i | 0 <= i < |hs| ensures FreshAt(document, hs, cs, i) {
      assert hs[i] in hs && IsHole(document, cs, hs[i]);
      if i > 0 {
        assert hs[i - 1].endByte <= hs[i].startByte;
      }
    }
  }

  /** Some valid delta touches every gap exactly when each of them is touched
      by a free stretch. */
  lemma DeltaExistsIff(document: string, cs: seq<Classification>, gaps: seq<Gap>)
    requires Placed(document, cs, 0) && Ascending(cs)
    ensures (exists delta :: DeltaValid(document, delta, cs) && AllSupplied(gaps, delta)) <==>
            forall gap | gap in gaps :: Suppliable(document, cs, gap)
  {
    hide Placed, DeltaValid, Blank, Holes, FreeStretch;
    if exists delta :: DeltaValid(document, delta, cs) && AllSupplied(gaps, delta) {
      var delta: seq<Classification> :| DeltaValid(document, delta, cs) && AllSupplied(gaps, delta);
      forall gap | gap in gaps ensures Suppliable(document, cs, gap) {
        assert IsSupplied(gap, delta);
        var d: Classification :| d in delta && d.startByte < gap.end && d.endByte > gap.start;
        DeltaIsFree(document, cs, delta, d);
      }
    }
    if forall gap | gap in gaps :: Suppliable(document, cs, gap) {
      HolesAreValid(document, cs);
      HolesSupply(document, cs, gaps);
    }
  }

  lemma HolesSupply(document: string, cs: seq<Classification>, gaps: seq<Gap>)
    requires Placed(document, cs, 0) && forall gap | gap in gaps :: Suppliable(document, cs, gap)
    ensures AllSupplied(gaps, Holes(document, cs, 0))
  {
    hide Suppliable, IsSupplied, Holes, Placed;
    forall gap | gap in gaps ensures IsSupplied(gap, Holes(document, cs, 0)) {
      SuppliableIff(document, cs, gap);
    }
  }

  /** The document can be cut into regions and has no marker text. */
  ghost predicate Printable(blank: string -> bool, document: string) {
    && document != "" && document[|document| - 1] == '\n' && Fillable(blank, Lines(document))
    && !Contains(document, PREFIX)
  }

  /** With the holes supplied, only the document itself can be in the way. */
  lemma HolesRegenerate(blank: string -> bool, document: string, cs: seq<Classification>)
    requires Placed(document, cs, 0) && Ascending(cs) && ValidLabels(cs) && DistinctAnchors(cs)
    ensures Regenerable(blank, document, cs + Holes(document, cs, 0)) <==> Printable(blank, document)
  {
    hide SortDecisions, JoinAll, Fillable, Contains, Placed;
    var hs := Holes(document, cs, 0);
    var all := cs + hs;
    HolesAre(document, cs, 0);
    HolesComplete(document, cs);
    hide Holes;
    SortedIsComplete(document, all);
    forall c | c in all ensures ValidKind(c) {
      if c in hs {
        assert IsHole(document, cs, c);
      }
    }
    HolesAddNoAnchor(document, cs, hs);
    SortedAnchors(all);
    assert [] + SortDecisions(all) == SortDecisions(all);
    JoinedAnchors([], SortDecisions(all));
  }

  lemma HolesAddNoAnchor(document: string, cs: seq<Classification>, hs: seq<Classification>)
    requires DistinctAnchors(cs) && forall h | h in hs :: IsHole(document, cs, h)
    ensures DistinctAnchors(cs + hs)
  {
    var all := cs + hs;
    forall k | |cs| <= k < |all| ensures all[k].kind != Anchor {
      assert all[k] == hs[k - |cs|] && all[k] in hs && IsHole(document, cs, all[k]);
    }
  }

  /** A ledger can be updated over these edits, by some delta, exactly when each
      gap of a dirty decision is touched by a stretch of the new document that
      has a payload and is free of the decisions carried over, and the document
      can be cut and has no marker text. */
  lemma UpdatableIff(blank: string -> bool, oldDocument: string, newDocument: string, ds: seq<Classification>,
                     edits: seq<ByteEdit>)
    requires Patches(edits, oldDocument, newDocument) && Decided(oldDocument, ds)
    requires ValidLabels(ds) && DistinctAnchors(ds) && forall d | d in ds :: HasPayload(oldDocument, d)
    ensures (exists delta :: Updates(blank, oldDocument, newDocument, ds, edits, delta)) <==>
              && Printable(blank, newDocument)
              && forall gap | gap in Gaps(oldDocument, ds, edits) ::
                   Suppliable(newDocument, Shifted(oldDocument, ds, edits), gap)
  {
    hide Patches, Decided, Shifted, Gaps, Suppliable, DeltaValid, AllSupplied, Placed, Ascending, ValidLabels,
      DistinctAnchors, Regenerable, Printable, Holes;
    var cs, gaps := Shifted(oldDocument, ds, edits), Gaps(oldDocument, ds, edits);
    ShiftedIsPlaced(oldDocument, newDocument, ds, edits);
    ShiftedAscends(oldDocument, newDocument, ds, edits);
    ShiftedLabels(oldDocument, ds, edits);
    ShiftedAnchors(oldDocument, ds, edits);
    DeltaExistsIff(newDocument, cs, gaps);
    HolesRegenerate(blank, newDocument, cs);
    if exists delta :: Updates(blank, oldDocument, newDocument, ds, edits, delta) {
      var delta :| Updates(blank, oldDocument, newDocument, ds, edits, delta);
      RegenerableIsPrintable(blank, newDocument, cs + delta);
    }
    if Printable(blank, newDocument) && forall gap | gap in gaps :: Suppliable(newDocument, cs, gap) {
      HolesAreValid(newDocument, cs);
      HolesSupply(newDocument, cs, gaps);
      assert Updates(blank, oldDocument, newDocument, ds, edits, Holes(newDocument, cs, 0));
    }
  }

  lemma RegenerableIsPrintable(blank: string -> bool, document: string, ds: seq<Classification>)
    requires Regenerable(blank, document, ds)
    ensures Printable(blank, document)
  {
  }

  // ------------------------------------------------------------ what is refused

  /** Three decisions that touch, from position to position. */
  function ThreeTouching(first: int, second: int, third: int): seq<Classification> {
    [Classification(0, first, Anchor, "a"), Classification(first, second, Anchor, "b"),
     Classification(second, third, Anchor, "c")]
  }

  lemma ThreeAreDecided(document: string, first: nat, second: nat)
    requires 0 < first < second < |document|
    requires !Whitespace(document[0]) && !Whitespace(document[first]) && !Whitespace(document[second])
    ensures var ds := ThreeTouching(first, second, |document|);
      && Decided(document, ds) && ValidLabels(ds) && DistinctAnchors(ds)
      && forall d | d in ds :: HasPayload(document, d)
  {
    assert document[0..first][0] == document[0] && document[first..second][0] == document[first];
    assert document[second..|document|][0] == document[second];
  }

  /** One edit that covers just the middle decision leaves the outer two. */
  lemma AroundOneEdit(edit: ByteEdit, length: nat)
    requires 0 < edit.oldStart < edit.oldEnd < length && edit.newStart == edit.oldStart
    ensures var edits, ds := [edit], ThreeTouching(edit.oldStart, edit.oldEnd, length);
      && IsClean(ds[0], edits) && !IsClean(ds[1], edits) && IsClean(ds[2], edits)
      && Moved(ds[0], edits) == ds[0]
      && Moved(ds[2], edits) == ds[2].(startByte := edit.newEnd, endByte := length + edit.newEnd - edit.oldEnd)
      && GapFor(ds[1], edits) == Gap(edit.newEnd, edit.newEnd)
  {
    assert edit in [edit];
  }

  lemma OnlyOuterStay(document: string, ds: seq<Classification>, edits: seq<ByteEdit>)
    requires |ds| == 3 && forall d | d in ds :: HasPayload(document, d)
    requires IsClean(ds[0], edits) && !IsClean(ds[1], edits) && IsClean(ds[2], edits)
    ensures HasPayload(document, ds[1])
    ensures Shifted(document, ds, edits) == [Moved(ds[0], edits), Moved(ds[2], edits)]
    ensures Gaps(document, ds, edits) == [GapFor(ds[1], edits)]
  {
    hide IsClean, HasPayload, GapFor;
    assert ds[1] in ds;
    NoDecisions(document, ds, edits);
    OneMoreDecision(document, ds, edits, 0);
    OneMoreDecision(document, ds, edits, 1);
    OneMoreDecision(document, ds, edits, 2);
    assert ds[..3] == ds;
  }

  /** Nothing is free around a position inside, or at an end of, a decision. */
  lemma NothingAround(document: string, cs: seq<Classification>, p: int)
    requires exists c | c in cs :: c.startByte <= p <= c.endByte && c.startByte < c.endByte
    ensures !Suppliable(document, cs, Gap(p, p))
  {
  }

  /** A middle decision that is replaced as a whole, by anything or nothing,
      can never be supplied again while its neighbours touch it. */
  lemma MiddleIsRefused(blank: string -> bool, oldDocument: string, newDocument: string, edit: ByteEdit)
    requires 0 < edit.oldStart < edit.oldEnd < |oldDocument| && edit.newStart == edit.oldStart
    requires !Whitespace(oldDocument[0]) && !Whitespace(oldDocument[edit.oldStart]) &&
               !Whitespace(oldDocument[edit.oldEnd])
    requires Patches([edit], oldDocument, newDocument)
    ensures var ds := ThreeTouching(edit.oldStart, edit.oldEnd, |oldDocument|);
      && Decided(oldDocument, ds) && ValidLabels(ds) && DistinctAnchors(ds)
      && (forall d | d in ds :: HasPayload(oldDocument, d))
      && forall delta :: !Updates(blank, oldDocument, newDocument, ds, [edit], delta)
  {
    hide Patches, Decided, ValidLabels, DistinctAnchors, Updates, IsClean, GapFor, Suppliable, Printable, Mapped;
    var ds, edits := ThreeTouching(edit.oldStart, edit.oldEnd, |oldDocument|), [edit];
    ThreeAreDecided(oldDocument, edit.oldStart, edit.oldEnd);
    AroundOneEdit(edit, |oldDocument|);
    OnlyOuterStay(oldDocument, ds, edits);
    var cs := Shifted(oldDocument, ds, edits);
    assert cs[1] in cs && cs[1].startByte == edit.newEnd < cs[1].endByte;
    NothingAround(newDocument, cs, edit.newEnd);
    assert Gaps(oldDocument, ds, edits)[0] in Gaps(oldDocument, ds, edits);
    UpdatableIff(blank, oldDocument, newDocument, ds, edits);
  }

  /** Deleting the second of three lines that are decisions of their own. */
  lemma DeletionIsRefused(blank: string -> bool)
    ensures var edits, ds := [ByteEdit(2, 4, 2, 2)], ThreeTouching(2, 4, 6);
      && Patches(edits, "a\nb\nc\n", "a\nc\n") && (forall d | d in ds :: HasPayload("a\nb\nc\n", d))
      && forall delta :: !Updates(blank, "a\nb\nc\n", "a\nc\n", ds, edits, delta)
  {
    assert Common("a\nb\nc\n", "a\nc\n", 4, 6, 2, 4) && Common("a\nb\nc\n", "a\nc\n", 0, 2, 0, 2);
    PatchesOnce("a\nb\nc\n", "a\nc\n", ByteEdit(2, 4, 2, 2));
    MiddleIsRefused(blank, "a\nb\nc\n", "a\nc\n", ByteEdit(2, 4, 2, 2));
  }

  /** Replacing the text of the second of three touching decisions. */
  lemma ReplacementIsRefused(blank: string -> bool)
    ensures var edits, ds := [ByteEdit(1, 2, 1, 2)], ThreeTouching(1, 2, 4);
      && Patches(edits, "abc\n", "axc\n") && (forall d | d in ds :: HasPayload("abc\n", d))
      && forall delta :: !Updates(blank, "abc\n", "axc\n", ds, edits, delta)
  {
    assert Common("abc\n", "axc\n", 2, 4, 2, 4) && Common("abc\n", "axc\n", 0, 1, 0, 1);
    PatchesOnce("abc\n", "axc\n", ByteEdit(1, 2, 1, 2));
    MiddleIsRefused(blank, "abc\n", "axc\n", ByteEdit(1, 2, 1, 2));
  }

  lemma PatchesOnce(a: string, b: string, edit: ByteEdit)
    requires edit.oldStart <= edit.oldEnd <= |a| && edit.newStart <= edit.newEnd <= |b| && edit.Size() > 0
    requires Common(a, b, 0, edit.oldStart, 0, edit.newStart) && Common(a, b, edit.oldEnd, |a|, edit.newEnd, |b|)
    ensures Patches([edit], a, b)
  {
    AddEdit([], edit, a, b, |a|, |b|);
    assert [] + [edit] == [edit];
  }

  // ------------------------------------------------------------- what a gap covers

  ghost predicate CoversNewBytes(gap: Gap, edit: ByteEdit) {
    gap.start <= edit.newStart && edit.newEnd <= gap.end
  }

  /** An edit that does not end before a position and is not the first to reach
      it lies behind. */
  lemma ReachedFirst(edits: seq<ByteEdit>, k: nat, position: nat)
    requires Ordered(edits) && k < |edits| && edits[k].oldStart <= position <= edits[k].oldEnd
    requires k > 0 ==> edits[k - 1].oldEnd < position
    ensures FirstReaching(edits, position) == k
  {
    forall j | 0 <= j < k ensures edits[j].oldEnd < position && edits[j].oldStart < position {
      if j < k - 1 {
        SeparatedPairs(edits, j, k - 1);
      }
      OrderedPair(edits, j);
    }
    FirstReachingIs(edits, position, k);
  }

  lemma Elsewhere(edits: seq<ByteEdit>, k: nat, j: nat)
    requires Ordered(edits) && k < |edits| && j < |edits| && j != k
    ensures edits[j].newStart <= edits[j].newEnd && edits[j].oldStart <= edits[j].oldEnd
    ensures j < k ==> edits[j].oldEnd < edits[k].oldStart && edits[j].newEnd < edits[k].newStart
    ensures k < j ==> edits[k].oldEnd < edits[j].oldStart && edits[k].newEnd < edits[j].newStart
  {
    OrderedPair(edits, j);
    if j < k {
      SeparatedPairs(edits, j, k);
    } else {
      SeparatedPairs(edits, k, j);
    }
  }

  lemma AroundIs(edits: seq<ByteEdit>, k: nat, position: nat, includeInsertion: bool)
    requires Ordered(edits) && k < |edits| && edits[k].oldStart < position < edits[k].oldEnd
    ensures Projected(position, includeInsertion, edits) ==
              if includeInsertion then edits[k].newStart else edits[k].newEnd
  {
    hide Ordered, Mapped;
    assert edits[k] in edits;
    if Around(edits, position) != k {
      Elsewhere(edits, k, Around(edits, position));
    }
  }

  lemma AtEditIs(edits: seq<ByteEdit>, k: nat, position: nat, includeInsertion: bool)
    requires Ordered(edits) && k < |edits| && edits[k].oldStart <= position <= edits[k].oldEnd
    requires position == edits[k].oldStart || position == edits[k].oldEnd
    ensures Projected(position, includeInsertion, edits) == OnEdit(edits[k], position, includeInsertion)
  {
    hide Ordered;
    if k > 0 {
      Elsewhere(edits, k, k - 1);
    }
    ReachedFirst(edits, k, position);
    forall j | 0 <= j < |edits| ensures !(edits[j].oldStart < position < edits[j].oldEnd) {
      if j != k {
        Elsewhere(edits, k, j);
      }
    }
  }

  /** A position ahead of an edit is projected ahead of its new bytes. */
  lemma AheadIs(edits: seq<ByteEdit>, a: string, b: string, k: nat, position: nat, includeInsertion: bool)
    requires Patches(edits, a, b) && k < |edits| && position < edits[k].oldStart
    ensures Projected(position, includeInsertion, edits) < edits[k].newStart
  {
    var i := FirstReaching(edits, position);
    GapParts(edits, a, b, i);
    hide Patches, Ordered;
    if exists edit | edit in edits :: edit.oldStart < position < edit.oldEnd {
      Elsewhere(edits, k, Around(edits, position));
    } else {
      OrderedPair(edits, k);
      if i != k {
        Elsewhere(edits, k, i);
      }
    }
  }

  lemma MappedBehind(edits: seq<ByteEdit>, k: nat, position: nat, includeInsertion: bool)
    requires Ordered(edits) && k < |edits| && edits[k].oldEnd < position
    ensures edits[k].newEnd <= Mapped(position, includeInsertion, edits)
  {
    var i := FirstReaching(edits, position);
    OrderedPair(edits, k);
    if i < |edits| && i != k {
      Elsewhere(edits, k, i);
    }
    if k < i - 1 {
      Elsewhere(edits, k, i - 1);
    }
    hide Ordered;
  }

  /** A position behind an edit is projected behind its new bytes. */
  lemma BehindIs(edits: seq<ByteEdit>, k: nat, position: nat, includeInsertion: bool)
    requires Ordered(edits) && k < |edits| && edits[k].oldEnd < position
    ensures edits[k].newEnd <= Projected(position, includeInsertion, edits)
  {
    hide Mapped, Ordered;
    MappedBehind(edits, k, position, includeInsertion);
    OrderedPair(edits, k);
    if exists edit | edit in edits :: edit.oldStart < position < edit.oldEnd {
      Elsewhere(edits, k, Around(edits, position));
    }
  }

  /** The gap of a decision covers the new bytes of an edit that touches it
      exactly when the edit starts elsewhere than the decision, or has none. */
  lemma GapCoversIff(edits: seq<ByteEdit>, a: string, b: string, d: Classification, edit: ByteEdit)
    requires Patches(edits, a, b) && HasPayload(a, d) && edit in edits && Touches(edit, d.startByte, d.endByte)
    ensures CoversNewBytes(GapFor(d, edits), edit) <==>
              edit.oldStart != d.startByte || edit.newStart == edit.newEnd
  {
    GapParts(edits, a, b, 0);
    var k :| 0 <= k < |edits| && edits[k] == edit;
    OrderedPair(edits, k);
    hide Patches, Ordered, Projected, Blank;
    if edit.oldStart == d.startByte {
      AtEditIs(edits, k, d.startByte, true);
    } else if edit.oldStart < d.startByte {
      AroundIs(edits, k, d.startByte, true);
    } else {
      AheadIs(edits, a, b, k, d.startByte, true);
    }
    if d.endByte < edit.oldEnd {
      AroundIs(edits, k, d.endByte, false);
    } else if d.endByte == edit.oldEnd {
      AtEditIs(edits, k, d.endByte, false);
    } else {
      BehindIs(edits, k, d.endByte, false);
    }
  }
}
