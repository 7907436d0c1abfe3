/** Regenerating twice: the ledger that a regeneration writes regenerates
    itself from the unchanged document, without a delta. */
module Idempotence {
  import opened Results
  import opened Markers
  import opened Materialize
  import opened Fragments
  import opened Coverage
  import opened Regions
  import opened Registry
  import opened RegistryFacts
  import opened Regeneration
  import opened Ledger
  import opened Resupply

  /** The decisions that the receipts of a ledger amount to. */
  ghost function DecisionsOf(receipts: seq<seq<Classification>>): seq<Classification> {
    JoinAll([], SortDecisions(FlattenFrom(receipts, 0)))
  }

  method OldDecisions(receipts: seq<seq<Classification>>) returns (ds: seq<Classification>)
    ensures ds == DecisionsOf(receipts)
  {
    var all := Collect(receipts);
    var sorted := SortDecisions(all);
    SortIsSorted(all);
    SortedStays(sorted);
    ds := MergeAdjacentDecisions(sorted);
  }

  /** Trimming uncovers no payload. */
  lemma TrimmedCovers(document: string, ds: seq<Classification>, bounds: seq<nat>)
    requires Cut(document, bounds) && Decided(document, ds) && forall d | d in ds :: Inside(document, d)
    requires PayloadCovered(document, ds, 0, |document|)
    ensures PayloadCovered(document, TrimAll(document, ds, bounds), 0, |document|)
  {
    hide Cut, Trim, Blank;
    var out := TrimAll(document, ds, bounds);
    forall p | 0 <= p < |document| && !Whitespace(document[p]) ensures CoveredBy(out, p) {
      assert CoveredBy(ds, p);
      var d :| d in ds && d.startByte <= p < d.endByte;
      var i :| 0 <= i < |ds| && ds[i] == d;
      assert HasPayload(document, d);
      TrimKeepsPayload(document, d, bounds);
      AllBlank(document, d.startByte, out[i].startByte);
      AllBlank(document, out[i].endByte, d.endByte);
      assert out[i] in out;
    }
  }

  lemma AllBlank(document: string, from: int, to: int)
    requires 0 <= from <= to <= |document| && Blank(document[from..to])
    ensures forall p | from <= p < to :: Whitespace(document[p])
  {
    forall p | from <= p < to ensures Whitespace(document[p]) {
      assert document[from..to][p - from] == document[p];
    }
  }

  lemma MergedIsComplete(blank: string -> bool, document: string, decisions: seq<Classification>)
    requires Regenerable(blank, document, decisions) && forall d | d in decisions :: HasPayload(document, d)
    ensures var merged := Merged(decisions);
      && Decided(document, merged) && PayloadCovered(document, merged, 0, |document|)
      && ValidLabels(merged) && DistinctAnchors(merged)
  {
    hide SortDecisions, JoinAll, Fillable, Contains, Blank, MarkerId, DistinctAnchors;
    var sorted, merged := SortDecisions(decisions), Merged(decisions);
    SortIsSorted(decisions);
    SameMembers(decisions, sorted);
    SortedDisjointAscends(document, sorted);
    MergeIsDecided(document, sorted);
    forall p | 0 <= p < |document| && !Whitespace(document[p]) ensures CoveredBy(merged, p) {
      assert CoveredBy(sorted, p);
    }
  }

  /** The decisions of a result can be regenerated again. */
  lemma ResultIsRegenerable(blank: string -> bool, document: string, decisions: seq<Classification>, r: Regenerated)
    requires Regenerable(blank, document, decisions) && IsResult(blank, document, decisions, r)
    requires forall d | d in decisions :: HasPayload(document, d)
    ensures var ds := DecisionsOf(r.receipts);
      && Decided(document, ds) && Regenerable(blank, document, ds) && ValidLabels(ds) && DistinctAnchors(ds)
  {
    var merged, bounds, ds := Merged(decisions), BoundsOf(r.regions), DecisionsOf(r.receipts);
    MergedIsComplete(blank, document, decisions);
    RegeneratedIsDecided(document, merged, r);
    hide SortDecisions, JoinAll, FlattenFrom, Cut, IsSplit, NothingPending, Placed, Parsed, RangesOf, Strip, Marked,
      Blank, Fillable, Contains, TrimAll, RegionsOf, MarkerId, Decided, PayloadCovered, ValidLabels, DistinctAnchors,
      DecisionsOf, CompletelyCovers;
    TrimmedCovers(document, merged, bounds);
    AnchorsStay(document, merged, bounds);
    LabelsStay(document, merged, bounds);
    DecidedIsComplete(document, ds);
    UnchangedStays(document, ds);
    assert ds + [] == ds;
  }

  lemma DecidedIsComplete(document: string, ds: seq<Classification>)
    requires Decided(document, ds) && PayloadCovered(document, ds, 0, |document|)
    ensures CompletelyCovers(document, SortDecisions(ds))
  {
    hide SortDecisions, Blank;
    DecidedAscends(document, ds);
    AscendingIsInOrder(ds);
    forall c | c in ds ensures 0 <= c.startByte < c.endByte <= |document| {
      assert HasPayload(document, c);
    }
    SortedIsComplete(document, ds);
  }

  lemma LabelsStay(document: string, ds: seq<Classification>, bounds: seq<nat>)
    requires Cut(document, bounds) && Decided(document, ds) && (forall d | d in ds :: Inside(document, d)) &&
               ValidLabels(ds)
    ensures ValidLabels(TrimAll(document, ds, bounds))
  {
    hide Cut, Trim, Blank, MarkerId;
    var out := TrimAll(document, ds, bounds);
    forall c | c in out ensures ValidKind(c) {
      var i :| 0 <= i < |out| && out[i] == c;
      assert ds[i] in ds && HasPayload(document, ds[i]);
      TrimKeepsPayload(document, ds[i], bounds);
    }
  }

  /** A result can be updated over the unchanged document by no delta at all,
      and that yields the result itself. */
  lemma LedgerRegeneratesItself(blank: string -> bool, document: string, decisions: seq<Classification>, r: Regenerated)
    requires Regenerable(blank, document, decisions) && IsResult(blank, document, decisions, r)
    requires forall d | d in decisions :: HasPayload(document, d)
    ensures var ds := DecisionsOf(r.receipts);
      && Decided(document, ds) && (forall d | d in ds :: HasPayload(document, d))
      && Updates(blank, document, document, ds, [], [])
      && forall again | IsResult(blank, document, Shifted(document, ds, []) + [], again) :: again == r
  {
    hide Decided, HasPayload, Regenerable, Shifted, Gaps, DeltaValid, AllSupplied, IsRegenerated, JoinAll,
      SortDecisions,
      FlattenFrom, RegionsOf;
    var ds := DecisionsOf(r.receipts);
    ResultIsRegenerable(blank, document, decisions, r);
    DecidedHasPayload(document, ds);
    UnchangedStays(document, ds);
    assert ds + [] == ds;
    forall again | IsResult(blank, document, Shifted(document, ds, []) + [], again) ensures again == r {
      RegeneratesItself(document, Merged(decisions), r, again);
    }
  }

  /** Regenerates, and then again from the new ledger and the same document. */
  method RegenerateTwice(blank: string -> bool, oldDocument: string, newDocument: string,
                         oldDecisions: seq<Classification>, delta: seq<Classification>)
    returns (first: Result<Regenerated, LedgerError>, second: Result<Regenerated, LedgerError>)
    requires forall line :: Blank(line) ==> blank(line)
    requires Decided(oldDocument, oldDecisions)
    ensures second == first
  {
    hide Decided, HasPayload, Regenerable, Shifted, Gaps, DeltaValid, AllSupplied, IsRegenerated, DecisionsOf,
      RegionsOf;
    var edits;
    first, edits := RegenerateLedger(blank, oldDocument, newDocument, oldDecisions, delta);
    if first.Err? {
      return first, first;
    }
    DecidedHasPayload(oldDocument, oldDecisions);
    ShiftedHavePayload(oldDocument, newDocument, oldDecisions, edits);
    DeltaHasPayload(newDocument, delta, Shifted(oldDocument, oldDecisions, edits));
    LedgerRegeneratesItself(blank, newDocument, Shifted(oldDocument, oldDecisions, edits) + delta, first.value);
    var ds := OldDecisions(first.value.receipts);
    var none;
    second, none := RegenerateLedger(blank, newDocument, newDocument, ds, []);
  }
}
