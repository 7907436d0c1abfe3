/** What a person may supply for the dirty decisions, said of the entries
    themselves rather than of the checks. */
module Deltas {
  import opened Markers
  import opened Materialize
  import opened Fragments
  import opened Coverage
  import opened Decisions
  import opened Regions
  import opened Registry
  import opened RegistryFacts
  import opened Regeneration
  import opened DocumentDiff
  import opened Transport
  import opened Ledger
  import opened Resupply

  // ------------------------------------------------------------- a delta as such

  /** A range of the document that holds a byte other than whitespace, with a
      named anchor or with no name at all. */
  ghost predicate WellFormed(document: string, d: Classification) {
    && 0 <= d.startByte < d.endByte <= |document|
    && (exists p | d.startByte <= p < d.endByte :: document[p] !in " \t\r\n")
    && ((d.kind == Anchor && d.markerId != "") || (d.kind == NonNormative && d.markerId == ""))
  }

  ghost predicate AnchorsDiffer(a: Classification, b: Classification) {
    a.kind == Anchor && b.kind == Anchor ==> a.markerId != b.markerId
  }

  /** Well-formed entries that repeat no anchor and share no byte with each
      other or with what was carried over. */
  ghost predicate CanBeSupplied(document: string, delta: seq<Classification>, shifted: seq<Classification>) {
    && (forall d | d in delta :: WellFormed(document, d))
    && (forall i, j | 0 <= i < j < |delta| :: AnchorsDiffer(delta[i], delta[j]))
    && (forall d, c | d in delta && c in shifted :: AnchorsDiffer(d, c))
    && Disjoint(shifted + delta)
  }

  lemma WellFormedIff(document: string, d: Classification)
    ensures WellFormed(document, d) <==> HasPayload(document, d) && DeltaLabel(d)
  {
    if 0 <= d.startByte < d.endByte <= |document| {
      var text := document[d.startByte..d.endByte];
      if !Blank(text) {
        var i :| 0 <= i < |text| && !Whitespace(text[i]);
        assert document[d.startByte + i] == text[i];
      }
      if exists p | d.startByte <= p < d.endByte :: document[p] !in " \t\r\n" {
        var p :| d.startByte <= p < d.endByte && document[p] !in " \t\r\n";
        assert text[p - d.startByte] == document[p];
      }
    }
  }

  /** What holds of any two places of a list holds of any two of its sorting. */
  lemma SameDelta(cs: seq<Classification>, sorted: seq<Classification>)
    requires multiset(cs) == multiset(sorted)
    ensures (forall i, j | 0 <= i < j < |cs| :: AnchorsDiffer(cs[i], cs[j])) ==>
              forall i, j | 0 <= i < j < |sorted| :: AnchorsDiffer(sorted[i], sorted[j])
    ensures Disjoint(cs) ==> Disjoint(sorted)
  {
    if forall i, j | 0 <= i < j < |cs| :: AnchorsDiffer(cs[i], cs[j]) {
      forall i, j | 0 <= i < j < |sorted| ensures AnchorsDiffer(sorted[i], sorted[j]) {
        var k, l := TwoPlaces(sorted, cs, i, j);
        assert if k < l then AnchorsDiffer(cs[k], cs[l]) else AnchorsDiffer(cs[l], cs[k]);
      }
    }
    SameDisjoint(cs, sorted);
  }

  /** Sorted nonempty ranges stand in line exactly when no two of them overlap. */
  lemma InLineIff(cs: seq<Classification>)
    requires forall c | c in cs :: c.startByte < c.endByte
    ensures InLine(SortDecisions(cs)) <==> Disjoint(cs)
  {
    hide SortDecisions;
    var sorted := SortDecisions(cs);
    SortIsSorted(cs);
    SameMembers(cs, sorted);
    if InLine(sorted) {
      forall i, j | 0 <= i < j < |sorted|
        ensures sorted[i].endByte <= sorted[j].startByte || sorted[j].endByte <= sorted[i].startByte
      {
        LineIsDisjoint(sorted, i, j);
      }
      SameDelta(sorted, cs);
    }
    if Disjoint(cs) {
      SameDelta(cs, sorted);
      forall i | 0 < i < |sorted| ensures sorted[i - 1].endByte <= sorted[i].startByte {
        assert sorted[i - 1] in sorted && sorted[i] in sorted && !Earlier(sorted[i], sorted[i - 1]);
      }
    }
  }

  lemma FreshMeans(document: string, ordered: seq<Classification>, shifted: seq<Classification>)
    ensures (forall i | 0 <= i < |ordered| :: FreshAt(document, ordered, shifted, i)) <==>
              && (forall d | d in ordered :: WellFormed(document, d))
              && (forall i, j | 0 <= i < j < |ordered| :: AnchorsDiffer(ordered[i], ordered[j]))
              && (forall d, c | d in ordered && c in shifted :: AnchorsDiffer(d, c))
              && InLine(ordered)
  {
    hide HasPayload, DeltaLabel, WellFormed, Blank;
    forall d | d in ordered ensures WellFormed(document, d) <==> HasPayload(document, d) && DeltaLabel(d) {
      WellFormedIff(document, d);
    }
    if forall i | 0 <= i < |ordered| :: FreshAt(document, ordered, shifted, i) {
      forall i, j | 0 <= i < j < |ordered| ensures AnchorsDiffer(ordered[i], ordered[j]) {
        assert FreshAt(document, ordered, shifted, j) && ordered[i] in ordered[..j];
      }
      forall d | d in ordered ensures WellFormed(document, d) && forall c | c in shifted :: AnchorsDiffer(d, c) {
        var i :| 0 <= i < |ordered| && ordered[i] == d;
        assert FreshAt(document, ordered, shifted, i);
      }
      forall i | 0 < i < |ordered| ensures ordered[i - 1].endByte <= ordered[i].startByte {
        assert FreshAt(document, ordered, shifted, i);
      }
    }
    if && (forall d | d in ordered :: WellFormed(document, d))
       && (forall i, j | 0 <= i < j < |ordered| :: AnchorsDiffer(ordered[i], ordered[j]))
       && (forall d, c | d in ordered && c in shifted :: AnchorsDiffer(d, c))
       && InLine(ordered) {
      forall i | 0 <= i < |ordered| ensures FreshAt(document, ordered, shifted, i) {
        assert ordered[i] in ordered && WellFormed(document, ordered[i]);
        assert forall d | d in ordered[..i] :: AnchorsDiffer(d, ordered[i]);
      }
    }
  }

  /** The check accepts exactly what can be supplied. */
  lemma DeltaValidIff(document: string, delta: seq<Classification>, shifted: seq<Classification>)
    requires forall c | c in shifted :: c.startByte < c.endByte
    ensures DeltaValid(document, delta, shifted) <==> CanBeSupplied(document, delta, shifted)
  {
    hide SortDecisions, WellFormed, AnchorsDiffer, InLine, Disjoint;
    var ordered := SortDecisions(delta);
    SortIsSorted(delta);
    SameMembers(delta, ordered);
    SameDelta(delta, ordered);
    SameDelta(ordered, delta);
    FreshMeans(document, ordered, shifted);
    if forall d | d in delta :: WellFormed(document, d) {
      forall d | d in delta + ordered ensures d.startByte < d.endByte {
        assert d in delta;
        WellFormedIff(document, d);
      }
      assert multiset(shifted + ordered) == multiset(shifted + delta);
      SameDelta(shifted + delta, shifted + ordered);
      SameDelta(shifted + ordered, shifted + delta);
      InLineIff(shifted + ordered);
      InLineIff(delta);
      if Disjoint(shifted + delta) {
        DisjointParts(shifted, delta);
      }
    }
  }

  lemma DisjointParts(a: seq<Classification>, b: seq<Classification>)
    requires Disjoint(a + b)
    ensures Disjoint(a) && Disjoint(b)
  {
    var all := a + b;
    assert forall i | 0 <= i < |a| :: all[i] == a[i];
    assert forall i | 0 <= i < |b| :: all[|a| + i] == b[i];
    forall i, j | 0 <= i < j < |b| ensures b[i].endByte <= b[j].startByte || b[j].endByte <= b[i].startByte {
      assert all[|a| + i] == b[i] && all[|a| + j] == b[j];
    }
    forall i, j | 0 <= i < j < |a| ensures a[i].endByte <= a[j].startByte || a[j].endByte <= a[i].startByte {
      assert all[i] == a[i] && all[j] == a[j];
    }
  }

  // -------------------------------------------------------------- a whole update

  /** Every dirty decision has a supplied one that reaches into its gap. */
  ghost predicate GapsTouched(ds: seq<Classification>, edits: seq<ByteEdit>, delta: seq<Classification>)
    requires forall d | d in ds :: 0 <= d.startByte && 0 <= d.endByte
  {
    forall d | d in ds && Dirty(d.startByte, d.endByte, edits) ::
      exists s | s in delta :: s.startByte < GapFor(d, edits).end && GapFor(d, edits).start < s.endByte
  }

  lemma {:induction false} GapsAre(document: string, ds: seq<Classification>, edits: seq<ByteEdit>, gap: Gap)
    requires forall d | d in ds :: HasPayload(document, d)
    ensures gap in Gaps(document, ds, edits) <==>
              exists d | d in ds :: Dirty(d.startByte, d.endByte, edits) && gap == GapFor(d, edits)
    decreases |ds|
  {
    hide Dirty, Projected, Blank;
    if ds != [] {
      var init, last := ds[..|ds| - 1], ds[|ds| - 1];
      assert ds == init + [last] && HasPayload(document, last);
      GapsAre(document, init, edits, gap);
    }
  }

  lemma TouchedIff(document: string, ds: seq<Classification>, edits: seq<ByteEdit>, delta: seq<Classification>)
    requires forall d | d in ds :: HasPayload(document, d)
    ensures (forall d | d in ds :: 0 <= d.startByte && 0 <= d.endByte)
    ensures AllSupplied(Gaps(document, ds, edits), delta) <==> GapsTouched(ds, edits, delta)
  {
    hide Dirty, Gaps, GapFor, Blank;
    forall gap: Gap ensures gap in Gaps(document, ds, edits) <==>
      exists d | d in ds :: Dirty(d.startByte, d.endByte, edits) && gap == GapFor(d, edits)
    {
      GapsAre(document, ds, edits, gap);
    }
    assert forall d | d in ds :: HasPayload(document, d) && 0 <= d.startByte && 0 <= d.endByte;
    if AllSupplied(Gaps(document, ds, edits), delta) {
      forall d | d in ds && Dirty(d.startByte, d.endByte, edits)
        ensures exists s | s in delta :: s.startByte < GapFor(d, edits).end && GapFor(d, edits).start < s.endByte
      {
        assert IsSupplied(GapFor(d, edits), delta);
      }
    }
  }

  /** The delta completes an update exactly when: it can be supplied beside the
      decisions carried over, its anchors are marker ids, it touches each gap,
      every byte other than whitespace belongs to a decision, and the document
      can be cut and has no marker text. */
  lemma UpdatesIff(blank: string -> bool, oldDocument: string, newDocument: string, ds: seq<Classification>,
                   edits: seq<ByteEdit>, delta: seq<Classification>)
    requires Patches(edits, oldDocument, newDocument) && Decided(oldDocument, ds)
    requires ValidLabels(ds) && DistinctAnchors(ds) && forall d | d in ds :: HasPayload(oldDocument, d)
    ensures var shifted := Shifted(oldDocument, ds, edits);
      Updates(blank, oldDocument, newDocument, ds, edits, delta) <==>
        && CanBeSupplied(newDocument, delta, shifted)
        && (forall d | d in delta && d.kind == Anchor :: MarkerId(d.markerId))
        && GapsTouched(ds, edits, delta)
        && (forall p | 0 <= p < |newDocument| && newDocument[p] !in " \t\r\n" ::
              exists d | d in shifted + delta :: d.startByte <= p < d.endByte)
        && Printable(blank, newDocument)
  {
    hide Patches, Decided, Shifted, Gaps, GapsTouched, AllSupplied, ValidLabels, DistinctAnchors, Regenerable,
      Printable,
      CanBeSupplied, DeltaValid, MarkerId;
    var shifted := Shifted(oldDocument, ds, edits);
    ShiftedHavePayload(oldDocument, newDocument, ds, edits);
    ShiftedLabels(oldDocument, ds, edits);
    ShiftedAnchors(oldDocument, ds, edits);
    assert forall c | c in shifted :: HasPayload(newDocument, c) && c.startByte < c.endByte;
    DeltaValidIff(newDocument, delta, shifted);
    TouchedIff(oldDocument, ds, edits, delta);
    if CanBeSupplied(newDocument, delta, shifted) {
      SuppliedIsRegenerable(blank, newDocument, shifted, delta);
    }
  }

  lemma SuppliedIsRegenerable(blank: string -> bool, document: string, shifted: seq<Classification>,
                              delta: seq<Classification>)
    requires CanBeSupplied(document, delta, shifted) && ValidLabels(shifted) && DistinctAnchors(shifted)
    requires forall c | c in shifted :: HasPayload(document, c)
    ensures Regenerable(blank, document, shifted + delta) <==>
              && (forall d | d in delta && d.kind == Anchor :: MarkerId(d.markerId))
              && (forall p | 0 <= p < |document| && document[p] !in " \t\r\n" ::
                    exists d | d in shifted + delta :: d.startByte <= p < d.endByte)
              && Printable(blank, document)
  {
    hide SortDecisions, JoinAll, Fillable, Contains, MarkerId, Blank;
    var all := shifted + delta;
    forall c | c in all ensures 0 <= c.startByte < c.endByte <= |document| {
      assert c in shifted ==> HasPayload(document, c);
      assert c in delta ==> WellFormed(document, c);
    }
    LabelsSupplied(document, shifted, delta);
    AnchorsSupplied(document, shifted, delta);
    SortedAnchors(all);
    assert [] + SortDecisions(all) == SortDecisions(all);
    JoinedAnchors([], SortDecisions(all));
    CompleteIff(document, all);
    hide ValidLabels, DistinctAnchors, CompletelyCovers, PayloadCovered, CanBeSupplied;
  }

  lemma LabelsSupplied(document: string, shifted: seq<Classification>, delta: seq<Classification>)
    requires ValidLabels(shifted) && forall d | d in delta :: WellFormed(document, d)
    ensures ValidLabels(shifted + delta) <==> forall d | d in delta && d.kind == Anchor :: MarkerId(d.markerId)
  {
    hide MarkerId;
    assert forall d | d in delta :: WellFormed(document, d) && d in shifted + delta;
  }

  lemma AnchorsSupplied(document: string, shifted: seq<Classification>, delta: seq<Classification>)
    requires CanBeSupplied(document, delta, shifted) && DistinctAnchors(shifted)
    ensures DistinctAnchors(shifted + delta)
  {
    var all := shifted + delta;
    forall i, j | 0 <= i < j < |all| && all[i].kind == Anchor && all[j].kind == Anchor
      ensures all[i].markerId != all[j].markerId
    {
      if i < |shifted| <= j {
        assert all[i] in shifted && all[j] in delta && AnchorsDiffer(all[j], all[i]);
      } else if |shifted| <= i {
        assert AnchorsDiffer(delta[i - |shifted|], delta[j - |shifted|]);
      }
    }
  }

  lemma CompleteIff(document: string, cs: seq<Classification>)
    requires (forall c | c in cs :: 0 <= c.startByte < c.endByte <= |document|) && Disjoint(cs)
    ensures CompletelyCovers(document, SortDecisions(cs)) <==>
              forall p | 0 <= p < |document| && document[p] !in " \t\r\n" ::
                exists d | d in cs :: d.startByte <= p < d.endByte
  {
    hide SortDecisions;
    var sorted := SortDecisions(cs);
    SortIsSorted(cs);
    SameMembers(cs, sorted);
    if CompletelyCovers(document, sorted) {
      forall p | 0 <= p < |document| && document[p] !in " \t\r\n"
        ensures exists d | d in cs :: d.startByte <= p < d.endByte
      {
        assert CoveredBy(sorted, p);
        var d :| d in sorted && d.startByte <= p < d.endByte;
        assert d in cs;
      }
    }
    if forall p | 0 <= p < |document| && document[p] !in " \t\r\n" ::
         exists d | d in cs :: d.startByte <= p < d.endByte {
      forall p | 0 <= p < |document| && !Whitespace(document[p]) ensures CoveredBy(cs, p) {
      }
      SortedIsComplete(document, cs);
    }
  }

  /** Naming an entry of no norm by a fresh marker id leaves an update an update. */
  lemma AnAnchorCanBeSupplied(blank: string -> bool, oldDocument: string, newDocument: string, ds: seq<Classification>,
                              edits: seq<ByteEdit>, delta: seq<Classification>, k: nat, id: string)
    requires Patches(edits, oldDocument, newDocument) && Decided(oldDocument, ds)
    requires ValidLabels(ds) && DistinctAnchors(ds) && forall d | d in ds :: HasPayload(oldDocument, d)
    requires Updates(blank, oldDocument, newDocument, ds, edits, delta)
    requires k < |delta| && delta[k].kind == NonNormative && MarkerId(id)
    requires !AnchorTaken(Shifted(oldDocument, ds, edits) + delta, id)
    ensures Updates(blank, oldDocument, newDocument, ds, edits,
              delta[k := Classification(delta[k].startByte, delta[k].endByte, Anchor, id)])
  {
    var named := delta[k := Classification(delta[k].startByte, delta[k].endByte, Anchor, id)];
    var shifted := Shifted(oldDocument, ds, edits);
    UpdatesIff(blank, oldDocument, newDocument, ds, edits, delta);
    UpdatesIff(blank, oldDocument, newDocument, ds, edits, named);
    hide Patches, Decided, Shifted, GapFor, ValidLabels, DistinctAnchors, Printable, Updates, Dirty;
    forall d | d in ds ensures 0 <= d.startByte && 0 <= d.endByte {
      assert HasPayload(oldDocument, d);
    }
    NamedKeeps(newDocument, shifted, delta, k, id);
    forall d | d in ds && Dirty(d.startByte, d.endByte, edits)
      ensures exists s | s in named :: s.startByte < GapFor(d, edits).end && GapFor(d, edits).start < s.endByte
    {
      var s :| s in delta && s.startByte < GapFor(d, edits).end && GapFor(d, edits).start < s.endByte;
      SamePlaces(delta, k, id, s);
    }
    forall p | 0 <= p < |newDocument| && newDocument[p] !in " \t\r\n"
      ensures exists d: Classification | d in shifted + named :: d.startByte <= p < d.endByte
    {
      var d :| d in shifted + delta && d.startByte <= p < d.endByte;
      if d in delta {
        SamePlaces(delta, k, id, d);
      } else {
        assert d in shifted + named;
      }
    }
  }

  lemma SamePlaces(delta: seq<Classification>, k: nat, id: string, s: Classification)
    requires k < |delta| && s in delta
    ensures exists t | t in delta[k := Classification(delta[k].startByte, delta[k].endByte, Anchor, id)] ::
              t.startByte == s.startByte && t.endByte == s.endByte
  {
    var named := delta[k := Classification(delta[k].startByte, delta[k].endByte, Anchor, id)];
    var i :| 0 <= i < |delta| && delta[i] == s;
    assert named[i] in named && named[i].startByte == s.startByte && named[i].endByte == s.endByte;
  }

  lemma NamedKeeps(document: string, shifted: seq<Classification>, delta: seq<Classification>, k: nat, id: string)
    requires CanBeSupplied(document, delta, shifted) && k < |delta| && MarkerId(id)
    requires !AnchorTaken(shifted + delta, id)
    requires forall d | d in delta && d.kind == Anchor :: MarkerId(d.markerId)
    ensures var named := delta[k := Classification(delta[k].startByte, delta[k].endByte, Anchor, id)];
      CanBeSupplied(document, named, shifted) && forall d | d in named && d.kind == Anchor :: MarkerId(d.markerId)
  {
    var named := delta[k := Classification(delta[k].startByte, delta[k].endByte, Anchor, id)];
    var all, before := shifted + named, shifted + delta;
    assert id != "";
    hide MarkerId;
    assert forall c | c in before :: !(c.kind == Anchor && c.markerId == id);
    forall i | 0 <= i < |named| ensures
      && WellFormed(document, named[i])
      && (named[i].kind == Anchor ==> MarkerId(named[i].markerId))
      && (forall c | c in shifted :: AnchorsDiffer(named[i], c))
      && (forall j | i < j < |named| :: AnchorsDiffer(named[i], named[j]))
    {
      assert delta[i] in delta && WellFormed(document, delta[i]) && delta[i] in before &&
        WellFormed(document, delta[k]);
      assert forall c | c in shifted :: c in before && AnchorsDiffer(delta[i], c);
      assert forall j | i < j < |delta| :: delta[j] in before && AnchorsDiffer(delta[i], delta[j]);
    }
    assert forall i | 0 <= i < |all| :: all[i].startByte == before[i].startByte && all[i].endByte == before[i].endByte;
  }

  /** Every supplied decision is read back from the marked document too. */
  lemma SuppliedReappear(blank: string -> bool, oldDocument: string, newDocument: string, ds: seq<Classification>,
                         edits: seq<ByteEdit>, delta: seq<Classification>, r: Regenerated)
    requires Patches(edits, oldDocument, newDocument) && forall d | d in ds :: HasPayload(oldDocument, d)
    requires Updates(blank, oldDocument, newDocument, ds, edits, delta)
    requires IsResult(blank, newDocument, Shifted(oldDocument, ds, edits) + delta, r)
    ensures forall d | d in delta :: Reappears(newDocument, d, r.marked)
  {
    hide Patches, Shifted, DeltaValid, AllSupplied, Regenerable, IsRegenerated, Reappears, HasPayload, RegionsOf,
      Merged;
    var all := Shifted(oldDocument, ds, edits) + delta;
    ShiftedHavePayload(oldDocument, newDocument, ds, edits);
    DeltaHasPayload(newDocument, delta, Shifted(oldDocument, ds, edits));
    forall d | d in delta ensures Reappears(newDocument, d, r.marked) {
      OneReappears(newDocument, newDocument, d, d, all, r);
    }
  }

  // ------------------------------------------------------------ where the gaps lie

  ghost predicate OnOrIn(edit: ByteEdit, position: nat) {
    edit.oldStart <= position <= edit.oldEnd
  }

  /** Two boundaries that may be compared: the two ends of one range, or the
      end of one range and the start of the next, not both inside one edit. */
  ghost predicate Comparable(edits: seq<ByteEdit>, x: nat, ofStart: bool, y: nat) {
    if ofStart then x < y
    else x <= y && forall e | e in edits :: !(e.oldStart < x < e.oldEnd && e.oldStart < y < e.oldEnd)
  }

  lemma ProjectedOnEdit(edits: seq<ByteEdit>, k: nat, x: nat, ofStart: bool, y: nat)
    requires Ordered(edits) && k < |edits| && OnOrIn(edits[k], x) && Comparable(edits, x, ofStart, y)
    ensures Projected(x, ofStart, edits) <= Projected(y, !ofStart, edits)
  {
    var e := edits[k];
    assert e in edits;
    OrderedPair(edits, k);
    hide Ordered, Projected;
    if e.oldStart < x < e.oldEnd {
      AroundIs(edits, k, x, ofStart);
    } else {
      AtEditIs(edits, k, x, ofStart);
    }
    if e.oldEnd < y {
      BehindIs(edits, k, y, !ofStart);
    } else if e.oldStart < y < e.oldEnd {
      AroundIs(edits, k, y, !ofStart);
    } else {
      AtEditIs(edits, k, y, !ofStart);
    }
  }

  lemma ProjectedAhead(edits: seq<ByteEdit>, a: string, b: string, k: nat, x: nat, ofStart: bool, y: nat)
    requires Patches(edits, a, b) && k < |edits| && x < edits[k].oldStart <= y
    ensures Projected(x, ofStart, edits) <= Projected(y, !ofStart, edits)
  {
    var e := edits[k];
    GapParts(edits, a, b, 0);
    OrderedPair(edits, k);
    AheadIs(edits, a, b, k, x, ofStart);
    hide Patches, Ordered, Projected;
    if e.oldEnd < y {
      BehindIs(edits, k, y, !ofStart);
    } else if e.oldStart < y < e.oldEnd {
      AroundIs(edits, k, y, !ofStart);
    } else {
      AtEditIs(edits, k, y, !ofStart);
    }
  }

  /** Projecting keeps the order of boundaries. */
  lemma ProjectionKeepsOrder(edits: seq<ByteEdit>, a: string, b: string, x: nat, ofStart: bool, y: nat)
    requires Patches(edits, a, b) && Comparable(edits, x, ofStart, y)
    ensures Projected(x, ofStart, edits) <= Projected(y, !ofStart, edits)
  {
    GapParts(edits, a, b, 0);
    if k: nat :| k < |edits| && OnOrIn(edits[k], x) {
      ProjectedOnEdit(edits, k, x, ofStart, y);
    } else if k: nat :| k < |edits| && x < edits[k].oldStart <= y {
      ProjectedAhead(edits, a, b, k, x, ofStart, y);
    } else {
      SameGap(edits, x, y);
    }
  }

  lemma SameGap(edits: seq<ByteEdit>, x: nat, y: nat)
    requires Ordered(edits) && x <= y
    requires forall k | 0 <= k < |edits| :: !OnOrIn(edits[k], x) && !(x < edits[k].oldStart <= y)
    ensures forall fx, fy :: Projected(x, fx, edits) <= Projected(y, fy, edits)
  {
    var i := FirstReaching(edits, x);
    forall k | 0 <= k < |edits| ensures
      && edits[k].oldStart <= edits[k].oldEnd
      && (k < i ==> edits[k].oldEnd < y && edits[k].oldStart < y)
      && !(edits[k].oldStart < x < edits[k].oldEnd) && !(edits[k].oldStart < y < edits[k].oldEnd)
    {
      OrderedPair(edits, k);
    }
    hide Ordered;
    FirstReachingIs(edits, y, i);
  }

  /** A gap is a range of the new document, and asks for nothing that a clean
      decision carried over. */
  lemma GapIsFree(edits: seq<ByteEdit>, a: string, b: string, d: Classification, c: Classification)
    requires Patches(edits, a, b) && HasPayload(a, d) && HasPayload(a, c)
    requires (c.endByte <= d.startByte || d.endByte <= c.startByte) && IsClean(c, edits)
    ensures var gap, m := GapFor(d, edits), Moved(c, edits);
      gap.start <= gap.end && (gap.end <= m.startByte || m.endByte <= gap.start)
  {
    hide Patches, Projected, Mapped, Blank;
    ProjectionKeepsOrder(edits, a, b, d.startByte, true, d.endByte);
    forall e | e in edits ensures
      !(e.oldStart < c.startByte < e.oldEnd) && !(e.oldStart < c.endByte < e.oldEnd) {
      assert !Touches(e, c.startByte, c.endByte);
    }
    MovedIsProjected(edits, c);
    if d.endByte <= c.startByte {
      ProjectionKeepsOrder(edits, a, b, d.endByte, false, c.startByte);
    } else {
      ProjectionKeepsOrder(edits, a, b, c.endByte, false, d.startByte);
    }
  }

  lemma MovedIsProjected(edits: seq<ByteEdit>, c: Classification)
    requires IsClean(c, edits)
    requires forall e | e in edits ::
               !(e.oldStart < c.startByte < e.oldEnd) && !(e.oldStart < c.endByte < e.oldEnd)
    ensures Moved(c, edits).startByte == Projected(c.startByte, true, edits)
    ensures Moved(c, edits).endByte == Projected(c.endByte, false, edits)
  {
    hide Mapped, Dirty;
  }
}
