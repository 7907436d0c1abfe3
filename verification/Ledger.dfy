/** Carrying the decisions of an old document over to a new one: diff, shift
    what is clean, check what a person supplies for the rest, and regenerate. */
module Ledger {
  import opened Results
  import opened Markers
  import opened Materialize
  import opened Fragments
  import opened Coverage
  import opened Regions
  import opened Registry
  import opened RegistryFacts
  import opened Regeneration
  import opened Myers
  import opened DocumentDiff
  import opened Transport

  // ------------------------------------------------------------ shifting decisions

  ghost predicate IsClean(d: Classification, edits: seq<ByteEdit>) {
    0 <= d.startByte && 0 <= d.endByte && !Dirty(d.startByte, d.endByte, edits)
  }

  /** A decision at its place in the new document. */
  ghost function Moved(d: Classification, edits: seq<ByteEdit>): Classification
    requires 0 <= d.startByte && 0 <= d.endByte
  {
    d.(startByte := Mapped(d.startByte, true, edits), endByte := Mapped(d.endByte, false, edits))
  }

  /** The clean decisions, moved. */
  ghost function Shifted(document: string, ds: seq<Classification>, edits: seq<ByteEdit>): seq<Classification>
    requires forall d | d in ds :: HasPayload(document, d)
  {
    if ds == [] then []
    else
      var init, d := ds[..|ds| - 1], ds[|ds| - 1];
      assert d in ds && HasPayload(document, d) && forall c | c in init :: c in ds;
      Shifted(document, init, edits) + if IsClean(d, edits) then [Moved(d, edits)] else []
  }

  /** Where a boundary of a dirty decision lies: an edit around it moves it to
      the outer end of the new bytes. */
  ghost function Projected(position: nat, includeInsertion: bool, edits: seq<ByteEdit>): int {
    if exists edit | edit in edits :: edit.oldStart < position < edit.oldEnd then
      var i := Around(edits, position);
      if includeInsertion then edits[i].newStart else edits[i].newEnd
    else Mapped(position, includeInsertion, edits)
  }

  ghost function Around(edits: seq<ByteEdit>, position: nat): (i: nat)
    requires exists edit | edit in edits :: edit.oldStart < position < edit.oldEnd
    ensures i < |edits| && edits[i].oldStart < position < edits[i].oldEnd
    ensures forall j | 0 <= j < i :: !(edits[j].oldStart < position < edits[j].oldEnd)
  {
    if edits[0].oldStart < position < edits[0].oldEnd then 0 else 1 + Around(edits[1..], position)
  }

  method ProjectBoundary(position: nat, includeInsertion: bool, edits: seq<ByteEdit>) returns (target: int)
    ensures target == Projected(position, includeInsertion, edits)
  {
    for i := 0 to |edits|
      invariant forall j | 0 <= j < i :: !(edits[j].oldStart < position < edits[j].oldEnd)
    {
      if edits[i].oldStart < position < edits[i].oldEnd {
        assert edits[i] in edits;
        return if includeInsertion then edits[i].newStart else edits[i].newEnd;
      }
    }
    target := MapBoundary(position, includeInsertion, edits);
  }

  /** What has to be supplied again for a dirty decision; possibly empty. */
  datatype Gap = Gap(start: int, end: int)

  ghost function GapFor(d: Classification, edits: seq<ByteEdit>): Gap
    requires 0 <= d.startByte && 0 <= d.endByte
  {
    var start, end := Projected(d.startByte, true, edits), Projected(d.endByte, false, edits);
    Gap(start, if end < start then start else end)
  }

  ghost function Gaps(document: string, ds: seq<Classification>, edits: seq<ByteEdit>): seq<Gap>
    requires forall d | d in ds :: HasPayload(document, d)
  {
    if ds == [] then []
    else
      var init, d := ds[..|ds| - 1], ds[|ds| - 1];
      assert d in ds && HasPayload(document, d) && forall c | c in init :: c in ds;
      Gaps(document, init, edits) + if IsClean(d, edits) then [] else [GapFor(d, edits)]
  }

  lemma OneMoreDecision(document: string, ds: seq<Classification>, edits: seq<ByteEdit>, i: nat)
    requires i < |ds| && forall d | d in ds :: HasPayload(document, d)
    ensures HasPayload(document, ds[i]) && forall d | d in ds[..i] + ds[..i + 1] :: HasPayload(document, d)
    ensures Shifted(document, ds[..i + 1], edits) ==
              Shifted(document, ds[..i], edits) + if IsClean(ds[i], edits) then [Moved(ds[i], edits)] else []
    ensures Gaps(document, ds[..i + 1], edits) ==
              Gaps(document, ds[..i], edits) + if IsClean(ds[i], edits) then [] else [GapFor(ds[i], edits)]
  {
    assert ds[..i + 1][..i] == ds[..i];
    assert ds[i] in ds;
  }

  /** Moves the clean decisions and lists where the dirty ones were. */
  method ShiftDecisions(ghost document: string, ds: seq<Classification>, edits: seq<ByteEdit>)
    returns (shifted: seq<Classification>, gaps: seq<Gap>)
    requires forall d | d in ds :: HasPayload(document, d)
    ensures shifted == Shifted(document, ds, edits) && gaps == Gaps(document, ds, edits)
  {
    hide HasPayload, Shifted, Gaps, Mapped, Dirty, Projected;
    shifted, gaps := [], [];
    NoDecisions(document, ds, edits);
    for i := 0 to |ds|
      invariant forall d | d in ds[..i] :: HasPayload(document, d)
      invariant shifted == Shifted(document, ds[..i], edits) && gaps == Gaps(document, ds[..i], edits)
    {
      var d := ds[i];
      OneMoreDecision(document, ds, edits, i);
      PayloadIsWithin(document, d);
      var dirty := DecisionDirty(d.startByte, d.endByte, edits);
      if dirty {
        var start := ProjectBoundary(d.startByte, true, edits);
        var end := ProjectBoundary(d.endByte, false, edits);
        if end < start {
          end := start;
        }
        gaps := gaps + [Gap(start, end)];
      } else {
        var start := MapBoundary(d.startByte, true, edits);
        var end := MapBoundary(d.endByte, false, edits);
        shifted := shifted + [d.(startByte := start, endByte := end)];
      }
    }
    assert ds[..|ds|] == ds;
  }

  lemma NoDecisions(document: string, ds: seq<Classification>, edits: seq<ByteEdit>)
    ensures Shifted(document, ds[..0], edits) == [] && Gaps(document, ds[..0], edits) == []
  {
  }

  lemma PayloadIsWithin(document: string, d: Classification)
    requires HasPayload(document, d)
    ensures 0 <= d.startByte < d.endByte <= |document|
  {
  }

  // -------------------------------------------------------- what a person supplies

  predicate DeltaLabel(d: Classification) {
    match d.kind
    case Anchor => d.markerId != ""
    case NonNormative => d.markerId == ""
    case Other(_) => false
  }

  ghost predicate AnchorTaken(cs: seq<Classification>, id: string) {
    exists c | c in cs :: c.kind == Anchor && c.markerId == id
  }

  /** Entry i has a payload, a label, and a fresh anchor if any. */
  ghost predicate FreshAt(document: string, ordered: seq<Classification>, shifted: seq<Classification>, i: nat)
    requires i < |ordered|
  {
    var d := ordered[i];
    && HasPayload(document, d) && DeltaLabel(d)
    && (d.kind == Anchor ==> !AnchorTaken(shifted, d.markerId) && !AnchorTaken(ordered[..i], d.markerId))
    && (i > 0 ==> ordered[i - 1].endByte <= d.startByte)
  }

  /** The supplied decisions are fresh one by one, in order, and nothing
      overlaps a shifted one. */
  ghost predicate DeltaValid(document: string, delta: seq<Classification>, shifted: seq<Classification>) {
    var ordered := SortDecisions(delta);
    && (forall i | 0 <= i < |ordered| :: FreshAt(document, ordered, shifted, i))
    && InLine(SortDecisions(shifted + ordered))
  }

  /** No entry starts before the one ahead of it ends. */
  ghost predicate InLine(cs: seq<Classification>) {
    forall i | 0 < i < |cs| :: cs[i - 1].endByte <= cs[i].startByte
  }

  method FirstOverlap(cs: seq<Classification>) returns (overlap: bool)
    ensures !overlap <==> InLine(cs)
  {
    var index := 1;
    while index < |cs|
      invariant 1 <= index && forall i | 0 < i < index && i < |cs| :: cs[i - 1].endByte <= cs[i].startByte
    {
      if cs[index - 1].endByte > cs[index].startByte {
        return true;
      }
      index := index + 1;
    }
    return false;
  }

  method ValidateDelta(document: string, delta: seq<Classification>, shifted: seq<Classification>) returns (valid: bool)
    ensures valid <==> DeltaValid(document, delta, shifted)
  {
    hide SortDecisions, AnchorTaken, DeltaLabel;
    var seenMarkers := set c | c in shifted && c.kind == Anchor :: c.markerId;
    var ordered := SortDecisions(delta);
    NoAnchorsYet(ordered, shifted);
    for index := 0 to |ordered|
      invariant forall i | 0 <= i < index :: FreshAt(document, ordered, shifted, i)
      invariant forall id :: id in seenMarkers <==> AnchorTaken(shifted, id) || AnchorTaken(ordered[..index], id)
    {
      var decision := ordered[index];
      OneMoreAnchor(ordered, index);
      if decision.startByte < 0 || decision.endByte <= decision.startByte || decision.endByte > |document| {
        assert !FreshAt(document, ordered, shifted, index);
        return false;
      }
      if Blank(document[decision.startByte..decision.endByte]) || !DeltaLabel(decision) {
        assert !FreshAt(document, ordered, shifted, index);
        return false;
      }
      if decision.kind == Anchor {
        if decision.markerId in seenMarkers {
          assert !FreshAt(document, ordered, shifted, index);
          return false;
        }
        seenMarkers := seenMarkers + {decision.markerId};
      }
      if index != 0 && ordered[index - 1].endByte > decision.startByte {
        assert !FreshAt(document, ordered, shifted, index);
        return false;
      }
    }
    var overlap := FirstOverlap(SortDecisions(shifted + ordered));
    return !overlap;
  }

  lemma NoAnchorsYet(cs: seq<Classification>, shifted: seq<Classification>)
    ensures forall id :: !AnchorTaken(cs[..0], id)
    ensures forall id :: id in (set c | c in shifted && c.kind == Anchor :: c.markerId) <==> AnchorTaken(shifted, id)
  {
  }

  lemma OneMoreAnchor(cs: seq<Classification>, i: nat)
    requires i < |cs|
    ensures forall id :: AnchorTaken(cs[..i + 1], id) <==>
                           AnchorTaken(cs[..i], id) || (cs[i].kind == Anchor && cs[i].markerId == id)
  {
    var front, more := cs[..i], cs[..i + 1];
    assert more == front + [cs[i]];
    forall id ensures AnchorTaken(more, id) <==>
      AnchorTaken(front, id) || (cs[i].kind == Anchor && cs[i].markerId == id) {
      if AnchorTaken(front, id) {
        var c :| c in front && c.kind == Anchor && c.markerId == id;
        assert c in more;
      }
      assert cs[i] in more;
    }
  }

  ghost predicate IsSupplied(gap: Gap, delta: seq<Classification>) {
    exists d | d in delta :: d.startByte < gap.end && d.endByte > gap.start
  }

  ghost predicate AllSupplied(gaps: seq<Gap>, delta: seq<Classification>) {
    forall gap | gap in gaps :: IsSupplied(gap, delta)
  }

  /** Whether every dirty decision is touched by a supplied one. */
  method CheckSupplied(gaps: seq<Gap>, delta: seq<Classification>) returns (missing: Option<nat>)
    ensures missing.None? <==> AllSupplied(gaps, delta)
  {
    for i := 0 to |gaps|
      invariant forall j | 0 <= j < i :: IsSupplied(gaps[j], delta)
    {
      var supplied := false;
      for j := 0 to |delta|
        invariant !supplied && forall k | 0 <= k < j ::
                    !(delta[k].startByte < gaps[i].end && delta[k].endByte > gaps[i].start)
      {
        if delta[j].startByte < gaps[i].end && delta[j].endByte > gaps[i].start {
          assert delta[j] in delta;
          supplied := true;
          break;
        }
      }
      if !supplied {
        assert gaps[i] in gaps;
        return Some(i);
      }
    }
    return None;
  }

  // ------------------------------------------------------------- the whole update

  datatype LedgerError =
    | NotCompared(diff: DiffError) | InvalidDelta | NotSupplied(index: nat) | Unregenerated(registry: RegistryError)

  /** The delta completes the update of a ledger over these edits. */
  ghost predicate Updates(blank: string -> bool, oldDocument: string, newDocument: string, ds: seq<Classification>,
                          edits: seq<ByteEdit>, delta: seq<Classification>)
    requires forall d | d in ds :: HasPayload(oldDocument, d)
  {
    var shifted := Shifted(oldDocument, ds, edits);
    && DeltaValid(newDocument, delta, shifted)
    && AllSupplied(Gaps(oldDocument, ds, edits), delta)
    && Regenerable(blank, newDocument, shifted + delta)
  }

  /** Regenerates the ledger of a new document. When the documents can be
      compared it succeeds exactly for a valid delta that touches every dirty
      decision and completes the shifted ones. */
  method RegenerateLedger(blank: string -> bool, oldDocument: string, newDocument: string,
                          oldDecisions: seq<Classification>, delta: seq<Classification>)
    returns (result: Result<Regenerated, LedgerError>, edits: seq<ByteEdit>)
    requires forall line :: Blank(line) ==> blank(line)
    requires Decided(oldDocument, oldDecisions)
    ensures (result.Err? && result.error.NotCompared?) || Patches(edits, oldDocument, newDocument)
    ensures !(result.Err? && result.error.NotCompared?) ==>
              (result.Ok? <==> Updates(blank, oldDocument, newDocument, oldDecisions, edits, delta))
    ensures result.Ok? ==>
              IsResult(blank, newDocument, Shifted(oldDocument, oldDecisions, edits) + delta, result.value)
    ensures oldDocument == newDocument ==> edits == [] && !(result.Err? && result.error.NotCompared?)
    ensures result.Ok? ==>
              forall d | d in oldDecisions && IsClean(d, edits) :: Reappears(oldDocument, d, result.value.marked)
  {
    hide Patches, Decided, Shifted, Gaps, DeltaValid, AllSupplied, Regenerable, IsRegenerated, HasPayload, Merged,
      RegionsOf;
    var diff := DiffBytes(oldDocument, newDocument);
    if diff.Failed? {
      return Err(NotCompared(diff.error)), [];
    }
    edits := diff.value;
    DecidedHasPayload(oldDocument, oldDecisions);
    var shifted, gaps := ShiftDecisions(oldDocument, oldDecisions, edits);
    var valid := ValidateDelta(newDocument, delta, shifted);
    if !valid {
      return Err(InvalidDelta), edits;
    }
    var missing := CheckSupplied(gaps, delta);
    if missing.Some? {
      return Err(NotSupplied(missing.value)), edits;
    }
    ShiftedHavePayload(oldDocument, newDocument, oldDecisions, edits);
    DeltaHasPayload(newDocument, delta, shifted);
    var regenerated := Regenerate(blank, newDocument, shifted + delta);
    match regenerated
    case Err(error) => return Err(Unregenerated(error)), edits;
    case Ok(value) =>
      CleanReappear(blank, oldDocument, newDocument, oldDecisions, edits, shifted, delta, value);
      return Ok(value), edits;
  }

  lemma DecidedHasPayload(document: string, ds: seq<Classification>)
    requires Decided(document, ds)
    ensures forall d | d in ds :: HasPayload(document, d)
  {
  }

  lemma DeltaHasPayload(document: string, delta: seq<Classification>, shifted: seq<Classification>)
    requires DeltaValid(document, delta, shifted)
    ensures forall d | d in delta :: HasPayload(document, d)
  {
    hide SortDecisions;
    var ordered := SortDecisions(delta);
    SortIsSorted(delta);
    SameMembers(delta, ordered);
    forall d | d in delta ensures HasPayload(document, d) {
      var i :| 0 <= i < |ordered| && ordered[i] == d;
      assert FreshAt(document, ordered, shifted, i);
    }
  }

  /** A clean decision with the same label and the same bytes. */
  ghost predicate Arrived(old_: string, new_: string, d: Classification, m: Classification) {
    && SameLabel(m, d) && HasPayload(old_, d) && HasPayload(new_, m)
    && new_[m.startByte..m.endByte] == old_[d.startByte..d.endByte]
  }

  lemma CleanArrives(old_: string, new_: string, d: Classification, edits: seq<ByteEdit>)
    requires Patches(edits, old_, new_) && HasPayload(old_, d) && IsClean(d, edits)
    ensures Arrived(old_, new_, d, Moved(d, edits))
  {
    hide Patches, Dirty, Mapped, Blank;
    TransportTheorem(edits, old_, new_, d.startByte, d.endByte);
  }

  lemma {:induction false} ShiftedAre(document: string, ds: seq<Classification>, edits: seq<ByteEdit>)
    requires forall d | d in ds :: HasPayload(document, d)
    ensures forall d | d in ds && IsClean(d, edits) :: Moved(d, edits) in Shifted(document, ds, edits)
    ensures forall m | m in Shifted(document, ds, edits) :: exists d | d in ds ::
              IsClean(d, edits) && m == Moved(d, edits)
    decreases |ds|
  {
    hide Dirty, Mapped, Blank;
    if ds != [] {
      var init, last := ds[..|ds| - 1], ds[|ds| - 1];
      assert ds == init + [last];
      ShiftedAre(document, init, edits);
    }
  }

  lemma ShiftedHavePayload(oldDocument: string, newDocument: string, ds: seq<Classification>, edits: seq<ByteEdit>)
    requires Patches(edits, oldDocument, newDocument) && forall d | d in ds :: HasPayload(oldDocument, d)
    ensures forall m | m in Shifted(oldDocument, ds, edits) :: HasPayload(newDocument, m)
  {
    hide Patches, Shifted, Dirty, Mapped, Blank;
    ShiftedAre(oldDocument, ds, edits);
    forall m | m in Shifted(oldDocument, ds, edits) ensures HasPayload(newDocument, m) {
      var d :| d in ds && IsClean(d, edits) && m == Moved(d, edits);
      CleanArrives(oldDocument, newDocument, d, edits);
    }
  }

  // ---------------------------------------------------------- clean decisions reappear

  /** The text without some blank start and end stands in the contents. */
  ghost predicate HoldsPayload(contents: string, text: string) {
    exists from, to, at :: HoldsPart(contents, text, from, to, at)
  }

  ghost predicate HoldsPart(contents: string, text: string, from: nat, to: nat, at: nat) {
    && from < to <= |text| && at + to - from <= |contents|
    && Blank(text[..from]) && Blank(text[to..]) && contents[at..at + to - from] == text[from..to]
  }

  /** Reading the marked document gives a range with the decision's label and
      with its text but for blank ends. */
  ghost predicate Reappears(document: string, d: Classification, marked: string) {
    && HasPayload(document, d) && Parsed(marked).Ok?
    && exists r | r in Parsed(marked).value ::
         r.classification == d.Label() && HoldsPayload(r.contents, document[d.startByte..d.endByte])
  }

  ghost predicate Within(c: Classification, m: Classification) {
    SameLabel(m, c) && m.startByte <= c.startByte && c.endByte <= m.endByte
  }

  ghost predicate Held(c: Classification, merged: seq<Classification>) {
    exists x | x in merged :: Within(c, x)
  }

  /** Merging loses no entry: each lies in some merged one with its label. */
  lemma {:induction false} MergedHolds(merged: seq<Classification>, cs: seq<Classification>, c: Classification)
    returns (m: Classification)
    requires (forall x | x in merged :: x.startByte <= x.endByte) && (forall x | x in cs :: x.startByte <= x.endByte)
    requires c in cs || Held(c, merged)
    ensures m in JoinAll(merged, cs) && Within(c, m)
    decreases |cs|
  {
    if cs == [] {
      m :| m in merged && Within(c, m);
    } else {
      var joined := Join(merged, cs[0]);
      assert cs[0] in cs;
      JoinHolds(merged, cs[0]);
      assert cs == [cs[0]] + cs[1..];
      if c == cs[0] || c !in cs {
        var x :| x in joined && Within(c, x);
      }
      m := MergedHolds(joined, cs[1..], c);
    }
  }

  lemma JoinHolds(merged: seq<Classification>, c: Classification)
    requires (forall x | x in merged :: x.startByte <= x.endByte) && c.startByte <= c.endByte
    ensures var joined := Join(merged, c);
      && (forall x | x in joined :: x.startByte <= x.endByte)
      && Held(c, joined)
      && forall y | Held(y, merged) :: Held(y, joined)
  {
    var joined := Join(merged, c);
    var last := joined[|joined| - 1];
    assert last in joined && Within(c, last);
    forall y | Held(y, merged) ensures Held(y, joined) {
      var x :| x in merged && Within(y, x);
      if x in joined {
        assert Within(y, x);
      } else {
        assert merged == merged[..|merged| - 1] + [merged[|merged| - 1]];
        assert Within(y, last);
      }
    }
  }

  /** An entry with a payload meets what trimming leaves of a longer one, and
      only blank ends of it lie outside. */
  lemma PayloadMeets(document: string, c: Classification, m: Classification, t: Classification)
    requires HasPayload(document, c) && Inside(document, m)
    requires m.startByte <= c.startByte && c.endByte <= m.endByte && m.startByte <= t.startByte < t.endByte <= m.endByte
    requires Blank(document[m.startByte..t.startByte]) && Blank(document[t.endByte..m.endByte])
    ensures c.startByte < t.endByte && t.startByte < c.endByte
    ensures c.startByte <= t.startByte ==> Blank(document[c.startByte..t.startByte])
    ensures t.endByte <= c.endByte ==> Blank(document[t.endByte..c.endByte])
  {
    hide Blank;
    if c.endByte <= t.startByte {
      BlankParts(document, m.startByte, c.startByte, t.startByte);
      BlankParts(document, c.startByte, c.endByte, t.startByte);
    } else if t.endByte <= c.startByte {
      BlankParts(document, t.endByte, c.startByte, m.endByte);
      BlankParts(document, c.startByte, c.endByte, m.endByte);
    } else {
      if c.startByte <= t.startByte {
        BlankParts(document, m.startByte, c.startByte, t.startByte);
      }
      if t.endByte <= c.endByte {
        BlankParts(document, t.endByte, c.endByte, m.endByte);
      }
    }
  }

  /** The payload of an entry stays inside what trimming leaves of a longer one. */
  lemma PayloadStays(document: string, text: string, c: Classification, m: Classification, t: Classification)
    requires HasPayload(document, c) && text == document[c.startByte..c.endByte]
    requires Within(c, m) && Inside(document, m) && m.startByte <= t.startByte < t.endByte <= m.endByte
    requires Blank(document[m.startByte..t.startByte]) && Blank(document[t.endByte..m.endByte])
    ensures HoldsPayload(document[t.startByte..t.endByte], text)
  {
    PayloadMeets(document, c, m, t);
    hide Blank, HoldsPayload;
    var start := if c.startByte < t.startByte then t.startByte else c.startByte;
    var end := if t.endByte < c.endByte then t.endByte else c.endByte;
    var from: nat, to: nat, at: nat := start - c.startByte, end - c.startByte, start - t.startByte;
    NothingIsBlank(document, c.startByte);
    NothingIsBlank(document, c.endByte);
    SliceOfSlice(document, c.startByte, c.endByte, 0, from);
    SliceOfSlice(document, c.startByte, c.endByte, to, |text|);
    SliceOfSlice(document, t.startByte, t.endByte, at, at + to - from);
    SliceOfSlice(document, c.startByte, c.endByte, from, to);
    assert HoldsPart(document[t.startByte..t.endByte], text, from, to, at);
    PartIsHeld(document[t.startByte..t.endByte], text, from, to, at);
  }

  lemma PartIsHeld(contents: string, text: string, from: nat, to: nat, at: nat)
    requires HoldsPart(contents, text, from, to, at)
    ensures HoldsPayload(contents, text)
  {
  }

  /** The clean decisions of the old document reappear in the marked new one. */
  lemma CleanReappear(blank: string -> bool, oldDocument: string, newDocument: string, ds: seq<Classification>,
                      edits: seq<ByteEdit>, shifted: seq<Classification>, delta: seq<Classification>, r: Regenerated)
    requires Patches(edits, oldDocument, newDocument) && forall d | d in ds :: HasPayload(oldDocument, d)
    requires shifted == Shifted(oldDocument, ds, edits) && forall d | d in delta :: HasPayload(newDocument, d)
    requires IsRegenerated(newDocument, Merged(shifted + delta), r)
    ensures forall d | d in ds && IsClean(d, edits) :: Reappears(oldDocument, d, r.marked)
  {
    hide Patches, Shifted, IsRegenerated, Reappears, Merged, Moved, Arrived, HasPayload, IsClean;
    ShiftedAre(oldDocument, ds, edits);
    ShiftedHavePayload(oldDocument, newDocument, ds, edits);
    forall d | d in ds && IsClean(d, edits) ensures Reappears(oldDocument, d, r.marked) {
      CleanIsWithin(d, edits);
      CleanArrives(oldDocument, newDocument, d, edits);
      OneReappears(oldDocument, newDocument, d, Moved(d, edits), shifted + delta, r);
    }
  }

  lemma CleanIsWithin(d: Classification, edits: seq<ByteEdit>)
    requires IsClean(d, edits)
    ensures 0 <= d.startByte && 0 <= d.endByte
  {
  }

  lemma OneReappears(oldDocument: string, newDocument: string, d: Classification, moved: Classification,
                     decisions: seq<Classification>, r: Regenerated)
    requires Arrived(oldDocument, newDocument, d, moved) && moved in decisions
    requires forall c | c in decisions :: HasPayload(newDocument, c)
    requires IsRegenerated(newDocument, Merged(decisions), r)
    ensures Reappears(oldDocument, d, r.marked)
  {
    hide Blank, Cut, IsSplit, NothingPending, Placed, Parsed, RangesOf, Trim, SortDecisions, JoinAll;
    var sorted := SortDecisions(decisions);
    SortIsSorted(decisions);
    SameMembers(decisions, sorted);
    var m := MergedHolds([], sorted, moved);
    var merged, bounds := Merged(decisions), BoundsOf(r.regions);
    var i :| 0 <= i < |merged| && merged[i] == m;
    var trimmed := TrimAll(newDocument, merged, bounds);
    MergedHasPayload(newDocument, m, moved);
    TrimKeepsPayload(newDocument, m, bounds);
    RangesAre(newDocument, trimmed, 0);
    var t := trimmed[i];
    PayloadStays(newDocument, oldDocument[d.startByte..d.endByte], moved, m, t);
    var range := RangesOf(newDocument, trimmed, 0)[i];
    assert range in Parsed(r.marked).value;
    assert range.classification == d.Label();
  }

  lemma MergedHasPayload(document: string, m: Classification, c: Classification)
    requires Within(c, m) && Inside(document, m) && HasPayload(document, c)
    ensures HasPayload(document, m)
  {
    BlankParts(document, m.startByte, c.startByte, m.endByte);
    BlankParts(document, c.startByte, c.endByte, m.endByte);
  }

  // ------------------------------------------------------- sorting what is apart

  lemma {:induction false} LineIsDisjoint(cs: seq<Classification>, i: nat, j: nat)
    requires InLine(cs) && i < j < |cs| && forall c | c in cs :: c.startByte < c.endByte
    ensures cs[i].endByte <= cs[j].startByte
    decreases j
  {
    if i < j - 1 {
      LineIsDisjoint(cs, i, j - 1);
      assert cs[j - 1] in cs;
    }
  }

  /** Two entries of a list that can be put in line share no byte. */
  lemma InLineApart(cs: seq<Classification>, i: nat, j: nat, p: int)
    requires InLine(SortDecisions(cs)) && i < j < |cs| && forall c | c in cs :: c.startByte < c.endByte
    ensures !(cs[i].startByte <= p < cs[i].endByte && cs[j].startByte <= p < cs[j].endByte)
  {
    hide SortDecisions, InLine;
    var sorted := SortDecisions(cs);
    SortIsSorted(cs);
    SameMembers(cs, sorted);
    var k, l := TwoPlaces(cs, sorted, i, j);
    if k < l {
      LineIsDisjoint(sorted, k, l);
    } else {
      LineIsDisjoint(sorted, l, k);
    }
  }

  lemma TwoPlaces(a: seq<Classification>, b: seq<Classification>, i: nat, j: nat) returns (k: nat, l: nat)
    requires multiset(a) == multiset(b) && i < j < |a|
    ensures k < |b| && l < |b| && k != l && b[k] == a[i] && b[l] == a[j]
  {
    var x, y := a[i], a[j];
    assert a == a[..j] + a[j..] && x in a[..j] && y in a[j..];
    assert multiset(a) == multiset(a[..j]) + multiset(a[j..]);
    assert x in multiset(b) && y in multiset(b);
    k :| 0 <= k < |b| && b[k] == x;
    if x == y {
      assert multiset(b)[x] >= 2;
      assert b == b[..k] + [b[k]] + b[k + 1..];
      assert multiset(b) == multiset(b[..k]) + multiset{x} + multiset(b[k + 1..]);
      if x in b[..k] {
        l :| 0 <= l < k && b[..k][l] == x;
      } else {
        assert x in b[k + 1..];
        var m :| 0 <= m < |b[k + 1..]| && b[k + 1..][m] == x;
        l := k + 1 + m;
      }
    } else {
      l :| 0 <= l < |b| && b[l] == y;
    }
  }

  // --------------------------------------------------------- an unchanged document

  lemma StaysClean(d: Classification)
    requires 0 <= d.startByte && 0 <= d.endByte
    ensures IsClean(d, []) && Moved(d, []) == d
  {
  }

  lemma {:induction false} NothingMoves(document: string, ds: seq<Classification>)
    requires forall d | d in ds :: HasPayload(document, d)
    ensures Shifted(document, ds, []) == ds && Gaps(document, ds, []) == []
    decreases |ds|
  {
    hide Blank;
    if ds != [] {
      var init, d := ds[..|ds| - 1], ds[|ds| - 1];
      assert ds == init + [d] && HasPayload(document, d);
      StaysClean(d);
      hide IsClean, Moved;
      NothingMoves(document, init);
    }
  }

  lemma {:induction false} NothingJoins(document: string, ds: seq<Classification>)
    requires Decided(document, ds)
    ensures JoinAll([], ds) == ds
    decreases |ds|
  {
    if ds != [] {
      var init, d := ds[..|ds| - 1], ds[|ds| - 1];
      assert ds == init + [d] && forall c | c in init :: c in ds;
      FrontIsDecided(document, ds);
      hide JoinAll, Join, Decided;
      NothingJoins(document, init);
      JoinAllSplits([], init, [d]);
      JoinsOne(init, d);
    } else {
      NothingToJoin();
    }
  }

  lemma NothingToJoin()
    ensures JoinAll([], []) == []
  {
  }

  lemma FrontIsDecided(document: string, ds: seq<Classification>)
    requires Decided(document, ds) && ds != []
    ensures Decided(document, ds[..|ds| - 1]) && Join(ds[..|ds| - 1], ds[|ds| - 1]) == ds
  {
    var init, d := ds[..|ds| - 1], ds[|ds| - 1];
    assert ds == init + [d] && forall c | c in init :: c in ds;
    forall i, j | 0 <= i < j < |init| ensures Apart(init[i], init[j]) {
      assert Apart(ds[i], ds[j]);
    }
    if init != [] {
      assert Apart(ds[|ds| - 2], d);
    }
    hide Blank;
  }

  /** Regenerating an unchanged document needs no delta and keeps its decisions. */
  lemma UnchangedStays(document: string, ds: seq<Classification>)
    requires Decided(document, ds)
    ensures Shifted(document, ds, []) == ds && Gaps(document, ds, []) == []
    ensures DeltaValid(document, [], ds) && AllSupplied([], [])
    ensures Merged(ds + []) == ds
  {
    DecidedHasPayload(document, ds);
    NothingMoves(document, ds);
    DecidedAscends(document, ds);
    AscendingIsInOrder(ds);
    SortedStays(ds);
    NothingJoins(document, ds);
    assert ds + [] == ds && SortDecisions([]) == [];
  }
}
