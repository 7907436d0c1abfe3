/** Carries byte ranges of the old document over to the new one. */
module Transport {
  import opened DocumentDiff

  // -------------------------------------------------------- the common gaps

  /** End of the edit before gap i, and start of the edit behind it. */
  ghost function GapStart(edits: seq<ByteEdit>, i: nat): nat
    requires i <= |edits|
  {
    if i == 0 then 0 else edits[i - 1].oldEnd
  }

  ghost function GapEnd(edits: seq<ByteEdit>, i: nat, length: nat): nat
    requires i <= |edits|
  {
    if i == |edits| then length else edits[i].oldStart
  }

  ghost function NewGapStart(edits: seq<ByteEdit>, i: nat): nat
    requires i <= |edits|
  {
    if i == 0 then 0 else edits[i - 1].newEnd
  }

  ghost function NewGapEnd(edits: seq<ByteEdit>, i: nat, length: nat): nat
    requires i <= |edits|
  {
    if i == |edits| then length else edits[i].newStart
  }

  /** Edits in order, with a common gap before, between and behind them. */
  ghost predicate Ordered(edits: seq<ByteEdit>) {
    && (forall i | 0 <= i < |edits| ::
      edits[i].oldStart <= edits[i].oldEnd && edits[i].newStart <= edits[i].newEnd && edits[i].Size() > 0)
    && (forall i | 0 <= i < |edits| - 1 :: Separated(edits[i], edits[i + 1]))
  }

  ghost predicate AlignedUpTo<T(!new)>(edits: seq<ByteEdit>, a: seq<T>, b: seq<T>, x: nat, y: nat) {
    && Ordered(edits)
    && (forall i | 0 <= i <= |edits| ::
          Common(a, b, GapStart(edits, i), GapEnd(edits, i, x), NewGapStart(edits, i), NewGapEnd(edits, i, y)))
  }

  lemma {:induction false} PatchIsAligned<T(!new)>(edits: seq<ByteEdit>, a: seq<T>, b: seq<T>, x: nat, y: nat)
    requires PatchesUpTo(edits, a, b, x, y)
    ensures AlignedUpTo(edits, a, b, x, y)
    decreases |edits|
  {
    if edits != [] {
      hide Common;
      var earlier, e := edits[..|edits| - 1], edits[|edits| - 1];
      PatchIsAligned(earlier, a, b, e.oldStart, e.newStart);
      forall i | 0 <= i <= |edits|
        ensures Common(a, b, GapStart(edits, i), GapEnd(edits, i, x), NewGapStart(edits, i), NewGapEnd(edits, i, y))
      {
        if i < |edits| {
          assert Common(a, b, GapStart(earlier, i), GapEnd(earlier, i, e.oldStart), NewGapStart(earlier, i),
            NewGapEnd(earlier, i, e.newStart));
        }
      }
    }
  }

  // ------------------------------------------------------------- boundaries

  predicate Touches(edit: ByteEdit, start: nat, end: nat) {
    || (edit.oldStart < end && edit.oldEnd > start)
    || (edit.oldStart == edit.oldEnd && start < edit.oldStart < end)
  }

  ghost predicate Dirty(start: nat, end: nat, edits: seq<ByteEdit>) {
    exists edit | edit in edits :: Touches(edit, start, end)
  }

  /** Whether an edit changes, or inserts strictly inside, the range [start, end). */
  method DecisionDirty(start: nat, end: nat, edits: seq<ByteEdit>) returns (dirty: bool)
    ensures dirty <==> Dirty(start, end, edits)
  {
    for i := 0 to |edits|
      invariant forall j | 0 <= j < i :: !Touches(edits[j], start, end)
    {
      if Touches(edits[i], start, end) {
        return true;
      }
    }
    return false;
  }

  /** The answer for a boundary that lies on or inside an edit. */
  function OnEdit(edit: ByteEdit, position: nat, includeInsertion: bool): int {
    if position == edit.oldStart then
      if includeInsertion then edit.newEnd else edit.newStart
    else if position < edit.oldEnd then edit.newStart
    else edit.newEnd
  }

  /** Index of the first edit that does not end before the position. */
  ghost function FirstReaching(edits: seq<ByteEdit>, position: nat): (i: nat)
    ensures i <= |edits| && (i < |edits| ==> edits[i].oldEnd >= position || edits[i].oldStart >= position)
    ensures forall j | 0 <= j < i :: edits[j].oldEnd < position && edits[j].oldStart < position
  {
    if edits == [] || edits[0].oldEnd >= position || edits[0].oldStart >= position then 0
    else 1 + FirstReaching(edits[1..], position)
  }

  /** Where a boundary of the old document lies in the new one. */
  ghost function Mapped(position: nat, includeInsertion: bool, edits: seq<ByteEdit>): int {
    var i := FirstReaching(edits, position);
    if i < |edits| && edits[i].oldStart <= position then OnEdit(edits[i], position, includeInsertion)
    else position + NewGapStart(edits, i) - GapStart(edits, i)
  }

  method MapBoundary(position: nat, includeInsertion: bool, edits: seq<ByteEdit>) returns (target: int)
    ensures target == Mapped(position, includeInsertion, edits)
  {
    var shift := 0;
    ghost var first := FirstReaching(edits, position);
    for i := 0 to |edits|
      invariant i <= first
      invariant shift == NewGapStart(edits, i) - GapStart(edits, i)
    {
      var edit := edits[i];
      if position < edit.oldStart {
        break;
      }
      if position == edit.oldStart && edit.oldStart == edit.oldEnd {
        return if includeInsertion then edit.newEnd else edit.newStart;
      }
      if position == edit.oldStart {
        return if includeInsertion then edit.newEnd else edit.newStart;
      }
      if position < edit.oldEnd {
        return edit.newStart;
      }
      if position == edit.oldEnd {
        return edit.newEnd;
      }
      shift := edit.newEnd - edit.oldEnd;
    }
    return position + shift;
  }

  // ------------------------------------------------------- transport theorem

  lemma {:induction false} SeparatedPairs(edits: seq<ByteEdit>, j: nat, k: nat)
    requires j < k < |edits|
    requires Ordered(edits)
    ensures Separated(edits[j], edits[k])
    decreases k
  {
    if j + 1 < k {
      SeparatedPairs(edits, j, k - 1);
      assert Separated(edits[k - 1], edits[k - 1 + 1]);
    }
  }

  /** The outer ends of an edit go to the outer ends of its new bytes, unless
      the insertion at the front is to be included; a position strictly inside
      an edit goes to the start of the new bytes. */
  lemma MappedAtEdit(edits: seq<ByteEdit>, i: nat, position: nat, includeInsertion: bool)
    requires Ordered(edits) && i < |edits| && edits[i].oldStart <= position <= edits[i].oldEnd
    ensures position == edits[i].oldStart && includeInsertion ==>
              Mapped(position, includeInsertion, edits) == edits[i].newEnd
    ensures position == edits[i].oldStart && !includeInsertion ==>
              Mapped(position, includeInsertion, edits) == edits[i].newStart
    ensures edits[i].oldStart < position < edits[i].oldEnd ==>
              Mapped(position, includeInsertion, edits) == edits[i].newStart
    ensures edits[i].oldStart < position == edits[i].oldEnd ==>
              Mapped(position, includeInsertion, edits) == edits[i].newEnd
  {
    var first := FirstReaching(edits, position);
    if first < i {
      SeparatedPairs(edits, first, i);
    }
  }

  ghost predicate InGap(edits: seq<ByteEdit>, i: nat, length: nat, start: nat, end: nat) {
    i <= |edits| && GapStart(edits, i) <= start && end <= GapEnd(edits, i, length)
  }

  /** Number of edits that end at or before the position. */
  ghost function GapOf(edits: seq<ByteEdit>, position: nat): (i: nat)
    ensures i <= |edits| && (i < |edits| ==> edits[i].oldEnd > position)
    ensures forall j | 0 <= j < i :: edits[j].oldEnd <= position
  {
    if edits == [] || edits[0].oldEnd > position then 0 else 1 + GapOf(edits[1..], position)
  }

  /** An edit lies on one side of any gap, without reaching into it. */
  lemma EditOutsideGap(edits: seq<ByteEdit>, i: nat, k: nat, length: nat)
    requires Ordered(edits) && i <= |edits| && k < |edits|
    ensures k < i ==> edits[k].oldEnd <= GapStart(edits, i) && edits[k].oldStart <= edits[k].oldEnd
    ensures k + 1 < i ==> edits[k].oldEnd < GapStart(edits, i)
    ensures i <= k ==> GapEnd(edits, i, length) <= edits[k].oldStart <= edits[k].oldEnd
  {
    hide Ordered;
    OrderedPair(edits, k);
    if k + 1 < i {
      OrderedPair(edits, i - 1);
      SeparatedPairs(edits, k, i - 1);
    } else if i < k {
      OrderedPair(edits, i);
      SeparatedPairs(edits, i, k);
    }
  }

  lemma OrderedPair(edits: seq<ByteEdit>, k: nat)
    requires Ordered(edits) && k < |edits|
    ensures edits[k].oldStart <= edits[k].oldEnd && edits[k].newStart <= edits[k].newEnd && edits[k].Size() > 0
  {
  }

  /** A nonempty range is clean exactly when it lies inside one common gap. */
  lemma CleanIffInGap(edits: seq<ByteEdit>, start: nat, end: nat, length: nat)
    requires Ordered(edits) && start < end <= length
    ensures !Dirty(start, end, edits) <==> exists i :: InGap(edits, i, length, start, end)
    ensures !Dirty(start, end, edits) ==> InGap(edits, GapOf(edits, start), length, start, end)
  {
    hide Ordered;
    if !Dirty(start, end, edits) {
      var i := GapOf(edits, start);
      if i < |edits| {
        assert edits[i] in edits;
      }
      assert InGap(edits, i, length, start, end);
    }
    forall i: nat, k: nat | InGap(edits, i, length, start, end) && k < |edits|
      ensures !Touches(edits[k], start, end)
    {
      EditOutsideGap(edits, i, k, length);
    }
  }

  lemma FirstReachingIs(edits: seq<ByteEdit>, position: nat, i: nat)
    requires i <= |edits|
    requires forall j | 0 <= j < i :: edits[j].oldEnd < position && edits[j].oldStart < position
    requires i < |edits| ==> edits[i].oldEnd >= position || edits[i].oldStart >= position
    ensures FirstReaching(edits, position) == i
  {
  }

  /** Inside gap i every boundary moves by the offset of that gap. */
  lemma MappedInGap(edits: seq<ByteEdit>, length: nat, newLength: nat, i: nat, position: nat, includeInsertion: bool)
    requires Ordered(edits) && InGap(edits, i, length, position, position)
    requires if includeInsertion then position < GapEnd(edits, i, length) else GapStart(edits, i) < position
    requires GapEnd(edits, i, length) - GapStart(edits, i) == NewGapEnd(edits, i, newLength) - NewGapStart(edits, i)
    ensures Mapped(position, includeInsertion, edits) == NewGapStart(edits, i) + position - GapStart(edits, i)
  {
    hide Ordered;
    var first := if i > 0 && position == GapStart(edits, i) then i - 1 else i;
    forall j | 0 <= j < |edits|
      ensures j < first ==> edits[j].oldEnd < position && edits[j].oldStart < position
      ensures j == first ==> edits[j].oldEnd >= position || edits[j].oldStart >= position
    {
      EditOutsideGap(edits, i, j, length);
    }
    FirstReachingIs(edits, position, first);
    if first < |edits| {
      EditOutsideGap(edits, i, first, length);
    }
  }

  lemma GapParts<T(!new)>(edits: seq<ByteEdit>, a: seq<T>, b: seq<T>, i: nat)
    requires Patches(edits, a, b) && i <= |edits|
    ensures Ordered(edits)
    ensures Common(a, b, GapStart(edits, i), GapEnd(edits, i, |a|), NewGapStart(edits, i), NewGapEnd(edits, i, |b|))
    ensures GapEnd(edits, i, |a|) - GapStart(edits, i) == NewGapEnd(edits, i, |b|) - NewGapStart(edits, i)
  {
    PatchIsAligned(edits, a, b, |a|, |b|);
    var o, u, p, v := GapStart(edits, i), GapEnd(edits, i, |a|), NewGapStart(edits, i), NewGapEnd(edits, i, |b|);
    assert Common(a, b, o, u, p, v);
    assert |a[o..u]| == |b[p..v]|;
  }

  /** Where a clean range goes: gap, and both mapped boundaries. */
  lemma CleanRange<T(!new)>(edits: seq<ByteEdit>, a: seq<T>, b: seq<T>, start: nat, end: nat) returns (i: nat)
    requires Patches(edits, a, b) && start < end <= |a| && !Dirty(start, end, edits)
    ensures i == GapOf(edits, start) && InGap(edits, i, |a|, start, end) && Ordered(edits)
    ensures Common(a, b, GapStart(edits, i), GapEnd(edits, i, |a|), NewGapStart(edits, i), NewGapEnd(edits, i, |b|))
    ensures Mapped(start, true, edits) - start == NewGapStart(edits, i) - GapStart(edits, i) ==
              Mapped(end, false, edits) - end
  {
    i := GapOf(edits, start);
    GapParts(edits, a, b, i);
    hide Patches, Ordered, Dirty, Mapped;
    CleanIffInGap(edits, start, end, |a|);
    MappedInGap(edits, |a|, |b|, i, start, true);
    MappedInGap(edits, |a|, |b|, i, end, false);
  }

  /** A clean range arrives byte for byte. */
  lemma TransportTheorem<T(!new)>(edits: seq<ByteEdit>, a: seq<T>, b: seq<T>, start: nat, end: nat)
    requires Patches(edits, a, b) && start < end <= |a| && !Dirty(start, end, edits)
    ensures var s, e := Mapped(start, true, edits), Mapped(end, false, edits);
      0 <= s && e <= |b| && e - s == end - start && b[s..e] == a[start..end]
  {
    hide Patches, Ordered, Dirty, Mapped;
    var i := CleanRange(edits, a, b, start, end);
    var o, u, p, v := GapStart(edits, i), GapEnd(edits, i, |a|), NewGapStart(edits, i), NewGapEnd(edits, i, |b|);
    LengthsInCommon(a, b, o, u, p, v);
    SliceOfSlice(a, o, u, start - o, end - o);
    SliceOfSlice(b, p, v, start - o, end - o);
  }

  lemma LengthsInCommon<T(!new)>(a: seq<T>, b: seq<T>, o: nat, u: nat, p: nat, v: nat)
    requires Common(a, b, o, u, p, v)
    ensures u - o == v - p && a[o..u] == b[p..v]
  {
    assert |a[o..u]| == |b[p..v]|;
  }

  /** Exactly the bytes [from, to) of the new document were inserted at a
      position of the old one; nothing was, when the range is empty. */
  ghost predicate InsertedAt(edits: seq<ByteEdit>, position: nat, from: nat, to: nat) {
    if from == to then forall edit | edit in edits :: !(edit.oldStart == position == edit.oldEnd)
    else exists edit | edit in edits :: edit == ByteEdit(position, position, from, to)
  }

  /** Clean ranges keep their order; between two that touched lie exactly the
      bytes inserted there. */
  lemma TransportKeepsOrder<T(!new)>(edits: seq<ByteEdit>, a: seq<T>, b: seq<T>, s1: nat, e1: nat, s2: nat, e2: nat)
    requires Patches(edits, a, b) && s1 < e1 <= s2 < e2 <= |a|
    requires !Dirty(s1, e1, edits) && !Dirty(s2, e2, edits)
    ensures 0 <= Mapped(e1, false, edits) <= Mapped(s2, true, edits)
    ensures e1 == s2 ==> InsertedAt(edits, e1, Mapped(e1, false, edits), Mapped(s2, true, edits))
  {
    hide Patches, Ordered, Dirty, Mapped;
    var i := CleanRange(edits, a, b, s1, e1);
    var j := CleanRange(edits, a, b, s2, e2);
    LengthsInCommon(a, b, GapStart(edits, i), GapEnd(edits, i, |a|), NewGapStart(edits, i), NewGapEnd(edits, i, |b|));
    if j < i {
      EditOutsideGap(edits, i, j, |a|);
      assert false;
    } else if i < j {
      OrderedPair(edits, i);
      EditOutsideGap(edits, j, i, |a|);
      if i < j - 1 {
        SeparatedPairs(edits, i, j - 1);
        OrderedPair(edits, j - 1);
      }
      if e1 == s2 {
        assert edits[i] in edits;
        assert edits[i] == ByteEdit(e1, e1, Mapped(e1, false, edits), Mapped(s2, true, edits));
      }
    } else if e1 == s2 {
      forall k: nat | k < |edits| ensures !(edits[k].oldStart == e1 == edits[k].oldEnd) {
        EditOutsideGap(edits, i, k, |a|);
      }
    }
  }
}
