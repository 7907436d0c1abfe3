/** What decisions have to be for a receipt and for a whole registry, said of
    their labels and their bytes rather than of the checks and of merging. */
module Decisions {
  import opened Markers
  import opened MarkerGrammar
  import opened Materialize
  import opened Fragments
  import opened Coverage
  import opened Regions
  import opened Registry
  import opened RegistryFacts
  import opened Regeneration
  import opened Ledger

  // ---------------------------------------------------------------- one receipt

  /** An anchor named by an id, or no norm and no name. */
  ghost predicate IsLabel(d: Classification) {
    (d.kind == Anchor && IsId(d.markerId)) || (d.kind == NonNormative && d.markerId == "")
  }

  lemma LabelIff(d: Classification)
    ensures ValidKind(d) <==> IsLabel(d)
  {
    MarkerIdIff(d.markerId);
  }

  ghost predicate HasByte(d: Classification, p: int) {
    d.startByte <= p < d.endByte
  }

  ghost predicate IsPayload(document: string, p: int) {
    0 <= p < |document| && document[p] !in " \t\r\n"
  }

  ghost predicate NoByteTwice(ds: seq<Classification>) {
    forall i, j, p | 0 <= i < j < |ds| :: !(HasByte(ds[i], p) && HasByte(ds[j], p))
  }

  ghost predicate EachByteDecided(document: string, ds: seq<Classification>, lo: int, hi: int) {
    forall p | lo <= p < hi && IsPayload(document, p) :: exists d | d in ds :: HasByte(d, p)
  }

  lemma PayloadIff(document: string, d: Classification)
    requires Inside(document, d)
    ensures HasPayload(document, d) <==> exists p :: HasByte(d, p) && IsPayload(document, p)
  {
    var text := document[d.startByte..d.endByte];
    if HasPayload(document, d) {
      var i :| 0 <= i < |text| && !Whitespace(text[i]);
      assert text[i] == document[d.startByte + i];
      assert HasByte(d, d.startByte + i) && IsPayload(document, d.startByte + i);
    }
    if exists p :: HasByte(d, p) && IsPayload(document, p) {
      var p :| HasByte(d, p) && IsPayload(document, p);
      assert text[p - d.startByte] == document[p];
    }
  }

  lemma DisjointIff(ds: seq<Classification>)
    requires forall d | d in ds :: d.startByte < d.endByte
    ensures Disjoint(ds) <==> NoByteTwice(ds)
  {
    if NoByteTwice(ds) {
      forall i, j | 0 <= i < j < |ds| ensures ds[i].endByte <= ds[j].startByte || ds[j].endByte <= ds[i].startByte {
        assert ds[i] in ds && ds[j] in ds;
        var p := if ds[i].startByte <= ds[j].startByte then ds[j].startByte else ds[i].startByte;
        assert !(HasByte(ds[i], p) && HasByte(ds[j], p));
      }
    }
  }

  lemma DecidedIff(document: string, ds: seq<Classification>, lo: int, hi: int)
    requires 0 <= lo <= hi <= |document|
    ensures PayloadCovered(document, ds, lo, hi) <==> EachByteDecided(document, ds, lo, hi)
  {
    forall p ensures CoveredBy(ds, p) <==> exists d | d in ds :: HasByte(d, p) {
      if CoveredBy(ds, p) {
        var d :| d in ds && d.startByte <= p < d.endByte;
        assert HasByte(d, p);
      }
    }
    forall p | lo <= p < hi ensures IsPayload(document, p) <==> !Whitespace(document[p]) {
    }
    hide CoveredBy, IsPayload, HasByte;
  }

  /** The receipt of a region is valid exactly when it is not empty, each entry
      is labelled, lies in the region and has a payload, and no byte is decided
      twice; it is complete when each byte of payload is decided. */
  lemma ReceiptIff(document: string, ds: seq<Classification>, lo: nat, hi: nat, complete: bool)
    requires lo <= hi <= |document|
    ensures RegionValid(document, ds, lo, hi, complete) <==>
              && ds != []
              && (forall d | d in ds :: IsLabel(d) && lo <= d.startByte < d.endByte <= hi)
              && (forall d | d in ds :: exists p :: HasByte(d, p) && IsPayload(document, p))
              && NoByteTwice(ds)
              && (complete ==> EachByteDecided(document, ds, lo, hi))
  {
    DecidedIff(document, ds, lo, hi);
    if forall d | d in ds :: lo <= d.startByte < d.endByte <= hi {
      DisjointIff(ds);
      forall d | d in ds
        ensures ValidKind(d) <==> IsLabel(d)
        ensures HasPayload(document, d) <==> exists p :: HasByte(d, p) && IsPayload(document, p)
      {
        LabelIff(d);
        PayloadIff(document, d);
      }
    }
    hide IsLabel, ValidKind, HasByte, IsPayload, Blank, Disjoint, NoByteTwice, EachByteDecided, PayloadCovered;
  }

  // ------------------------------------------------------------ a whole registry

  ghost predicate Named(ds: seq<Classification>, like: Classification, p: int) {
    exists d | d in ds :: SameLabel(d, like) && HasByte(d, p)
  }

  /** From the first byte of an anchor to its last, each byte belongs to it. */
  ghost predicate AnchorsUnbroken(ds: seq<Classification>) {
    forall a, b, p | a in ds && b in ds && a.kind == Anchor && SameLabel(a, b) && a.startByte <= p < b.endByte ::
      Named(ds, a, p)
  }

  lemma JoinNames(merged: seq<Classification>, c: Classification, like: Classification, p: int)
    requires (forall d | d in merged :: d.startByte <= d.endByte) && c.startByte <= c.endByte
    ensures forall d | d in Join(merged, c) :: d.startByte <= d.endByte
    ensures Named(Join(merged, c), like, p) <==> Named(merged, like, p) || Named([c], like, p)
  {
    var joined := Join(merged, c);
    if joined != merged + [c] {
      var init, last := merged[..|merged| - 1], merged[|merged| - 1];
      var longer := last.(endByte := c.endByte);
      assert merged == init + [last] && joined == init + [longer];
      NamedParts(init, [last], like, p);
      NamedParts(init, [longer], like, p);
      assert last in merged;
      assert HasByte(longer, p) <==> HasByte(last, p) || HasByte(c, p);
      assert Named([longer], like, p) <==> Named([last], like, p) || Named([c], like, p) by {
        NamedOne(longer, like, p);
        NamedOne(last, like, p);
        NamedOne(c, like, p);
      }
    } else {
      NamedParts(merged, [c], like, p);
    }
  }

  lemma NamedOne(d: Classification, like: Classification, p: int)
    ensures Named([d], like, p) <==> SameLabel(d, like) && HasByte(d, p)
  {
    assert d in [d];
  }

  lemma NamedParts(a: seq<Classification>, b: seq<Classification>, like: Classification, p: int)
    ensures Named(a + b, like, p) <==> Named(a, like, p) || Named(b, like, p)
  {
    hide SameLabel, HasByte;
    assert forall d :: d in a + b <==> d in a || d in b;
  }

  /** Merging changes the label of no byte. */
  lemma {:induction false} MergingKeepsNames(merged: seq<Classification>, cs: seq<Classification>,
                                             like: Classification, p: int)
    requires forall d | d in merged :: d.startByte <= d.endByte
    requires forall d | d in cs :: d.startByte <= d.endByte
    ensures Named(JoinAll(merged, cs), like, p) <==> Named(merged, like, p) || Named(cs, like, p)
    decreases |cs|
  {
    hide Named, Join, HasByte, SameLabel;
    if cs == [] {
      NothingNamed(like, p);
    } else {
      var c, rest := cs[0], cs[1..];
      assert c in cs && cs == [c] + rest;
      JoinNames(merged, c, like, p);
      NamedParts([c], rest, like, p);
      MergingKeepsNames(Join(merged, c), rest, like, p);
    }
  }

  lemma NothingNamed(like: Classification, p: int)
    ensures !Named([], like, p)
  {
  }

  lemma DistinctIsUnbroken(ds: seq<Classification>, m: seq<Classification>, a: Classification, b: Classification,
                           p: int)
    requires forall d | d in ds :: d.startByte < d.endByte
    requires m == JoinAll([], ds) && DistinctAnchors(m)
    requires a in ds && b in ds && a.kind == Anchor && SameLabel(a, b) && a.startByte <= p < b.endByte
    ensures Named(ds, a, p)
  {
    hide JoinAll;
    var x := MergedHolds([], ds, a);
    var y := MergedHolds([], ds, b);
    var i :| 0 <= i < |m| && m[i] == x;
    var j :| 0 <= j < |m| && m[j] == y;
    assert i == j;
    assert SameLabel(x, a) && HasByte(x, p);
    MergingKeepsNames([], ds, a, p);
    NothingNamed(a, p);
  }

  /** Between two merged entries of one label some byte has another label. */
  lemma ApartIsBroken(document: string, m: seq<Classification>, i: nat, j: nat)
    requires Decided(document, m) && i < j < |m| && SameLabel(m[i], m[j])
    ensures !Named(m, m[i], m[i].endByte)
  {
    hide Blank;
    var p := m[i].endByte;
    forall k | 0 <= k < |m| && SameLabel(m[k], m[i]) ensures !HasByte(m[k], p) {
      assert HasPayload(document, m[k]) && HasPayload(document, m[i]);
      assert (k < i ==> Apart(m[k], m[i])) && (i < k ==> Apart(m[i], m[k]));
    }
  }

  lemma UnbrokenIsNamed(ds: seq<Classification>, m: seq<Classification>, i: nat, j: nat)
    requires (forall d | d in ds :: d.startByte < d.endByte) && m == JoinAll([], ds) && AnchorsUnbroken(ds)
    requires i < j < |m| && m[i].kind == Anchor && SameLabel(m[i], m[j])
    requires m[i].startByte < m[i].endByte <= m[j].startByte < m[j].endByte
    ensures Named(m, m[i], m[i].endByte)
  {
    hide JoinAll;
    var like, p := m[i], m[i].endByte;
    forall q ensures Named(m, like, q) <==> Named(ds, like, q) {
      MergingKeepsNames([], ds, like, q);
      NothingNamed(like, q);
    }
    assert HasByte(m[i], m[i].startByte) && HasByte(m[j], m[j].endByte - 1) && SameLabel(m[j], like);
    assert Named(ds, like, m[i].startByte) && Named(ds, like, m[j].endByte - 1);
    var a :| a in ds && SameLabel(a, like) && HasByte(a, m[i].startByte);
    var b :| b in ds && SameLabel(b, like) && HasByte(b, m[j].endByte - 1);
    assert a.startByte <= p < b.endByte && SameLabel(a, b) && a.kind == Anchor;
    assert Named(ds, a, p);
    var d :| d in ds && SameLabel(d, a) && HasByte(d, p);
    assert SameLabel(d, like);
  }

  lemma UnbrokenIsDistinct(document: string, ds: seq<Classification>, m: seq<Classification>, i: nat, j: nat)
    requires (forall d | d in ds :: d.startByte < d.endByte) && m == JoinAll([], ds) && Decided(document, m)
    requires AnchorsUnbroken(ds) && i < j < |m| && m[i].kind == Anchor && m[j].kind == Anchor
    ensures m[i].markerId != m[j].markerId
  {
    hide JoinAll, AnchorsUnbroken, Named, Blank;
    if m[i].markerId == m[j].markerId {
      assert HasPayload(document, m[i]) && HasPayload(document, m[j]) && Apart(m[i], m[j]);
      UnbrokenIsNamed(ds, m, i, j);
      ApartIsBroken(document, m, i, j);
    }
  }

  /** An anchor stays in one place when merged exactly when it is unbroken. */
  lemma UnbrokenIff(document: string, ds: seq<Classification>)
    requires Ascending(ds) && forall d | d in ds :: HasPayload(document, d)
    ensures DistinctAnchors(JoinAll([], ds)) <==> AnchorsUnbroken(ds)
  {
    var m := JoinAll([], ds);
    MergeIsDecided(document, ds);
    hide JoinAll, Named, SameLabel, Blank;
    if DistinctAnchors(m) {
      forall a, b, p | a in ds && b in ds && a.kind == Anchor && SameLabel(a, b) && a.startByte <= p < b.endByte
        ensures Named(ds, a, p)
      {
        DistinctIsUnbroken(ds, m, a, b, p);
      }
    }
    if AnchorsUnbroken(ds) {
      forall i, j | 0 <= i < j < |m| && m[i].kind == Anchor && m[j].kind == Anchor
        ensures m[i].markerId != m[j].markerId
      {
        UnbrokenIsDistinct(document, ds, m, i, j);
      }
    }
  }

  lemma OrderIsFree(document: string, a: seq<Classification>, b: seq<Classification>)
    requires multiset(a) == multiset(b)
    ensures AnchorsUnbroken(a) <==> AnchorsUnbroken(b)
    ensures EachByteDecided(document, a, 0, |document|) <==> EachByteDecided(document, b, 0, |document|)
  {
    SameMembers(a, b);
    hide SameLabel, HasByte, IsPayload;
    forall like, p ensures Named(a, like, p) <==> Named(b, like, p) {
    }
  }

  /** A document regenerates from decisions exactly when each is labelled, no
      byte is decided twice, each byte of payload is decided, each anchor is
      unbroken, no marker text stands in the document, and the document can be
      cut into regions. */
  lemma RegenerableIff(blank: string -> bool, document: string, decisions: seq<Classification>)
    requires forall d | d in decisions :: HasPayload(document, d)
    ensures Regenerable(blank, document, decisions) <==>
              && (forall d | d in decisions :: IsLabel(d))
              && NoByteTwice(decisions)
              && EachByteDecided(document, decisions, 0, |document|)
              && AnchorsUnbroken(decisions)
              && !(exists p | 0 <= p <= |document| :: "<!-- partitur:mark" <= document[p..])
              && document != "" && document[|document| - 1] == '\n' && Fillable(blank, Lines(document))
  {
    var ds := SortDecisions(decisions);
    SortIsSorted(decisions);
    SameMembers(decisions, ds);
    assert Contains(document, PREFIX) <==> exists p | 0 <= p <= |document| :: "<!-- partitur:mark" <= document[p..];
    hide SortDecisions, JoinAll, Fillable, Contains, Blank, Lines;
    assert forall d | d in decisions + ds :: HasPayload(document, d) && 0 <= d.startByte < d.endByte <= |document|;
    forall d | d in decisions ensures ValidKind(d) <==> IsLabel(d) {
      LabelIff(d);
    }
    hide IsLabel, ValidKind;
    OrderIsFree(document, decisions, ds);
    Deciding(document, decisions, ds);
    if CompletelyCovers(document, ds) {
      SortedDisjointAscends(document, ds);
      UnbrokenIff(document, ds);
    }
    hide CompletelyCovers, AnchorsUnbroken, EachByteDecided, NoByteTwice, DistinctAnchors;
  }

  lemma Deciding(document: string, decisions: seq<Classification>, ds: seq<Classification>)
    requires multiset(decisions) == multiset(ds)
    requires forall d | d in decisions + ds :: 0 <= d.startByte < d.endByte <= |document|
    ensures CompletelyCovers(document, ds) <==>
              NoByteTwice(decisions) && EachByteDecided(document, decisions, 0, |document|)
  {
    SameMembers(decisions, ds);
    OrderIsFree(document, decisions, ds);
    DecidedIff(document, ds, 0, |document|);
    DisjointIff(decisions);
    SameDisjoint(decisions, ds);
    SameDisjoint(ds, decisions);
    hide Disjoint, PayloadCovered, EachByteDecided, NoByteTwice;
  }

  lemma SameDisjoint(cs: seq<Classification>, ds: seq<Classification>)
    requires multiset(cs) == multiset(ds)
    ensures Disjoint(cs) ==> Disjoint(ds)
  {
    if Disjoint(cs) {
      forall i, j | 0 <= i < j < |ds| ensures ds[i].endByte <= ds[j].startByte || ds[j].endByte <= ds[i].startByte {
        var k, l := TwoPlaces(ds, cs, i, j);
        assert if k < l then cs[k] == ds[i] && cs[l] == ds[j] else cs[l] == ds[j] && cs[k] == ds[i];
      }
    }
  }
}
