/** Printing classified ranges as marker tokens, and why reading them back
    always gives the same ranges and the same source. */
module Materialize {
  import opened Results
  import opened Sequences
  import opened Markers

  /** The ranges lie in order, inside the source, behind the cursor. */
  ghost predicate Placed(source: string, cs: seq<Classification>, cursor: int) {
    if cs == [] then 0 <= cursor <= |source|
    else
      && 0 <= cursor <= cs[0].startByte < cs[0].endByte <= |source|
      && Placed(source, cs[1..], cs[0].endByte)
  }

  ghost predicate ValidKind(c: Classification) {
    (c.kind == Anchor && MarkerId(c.markerId)) || (c.kind == NonNormative && c.markerId == "")
  }

  /** Every range has a valid label and a payload. */
  ghost predicate Labelled(source: string, cs: seq<Classification>) {
    forall c | c in cs :: ValidKind(c) && (0 <= c.startByte <= c.endByte <= |source| ==>
      !Blank(source[c.startByte..c.endByte]))
  }

  ghost predicate DistinctAnchors(cs: seq<Classification>) {
    forall i, j | 0 <= i < j < |cs| && cs[i].kind == Anchor && cs[j].kind == Anchor :: cs[i].markerId != cs[j].markerId
  }

  /** The source from the cursor on, with a pair of tokens around each range. */
  ghost function Marked(source: string, cs: seq<Classification>, cursor: int): string
    requires Placed(source, cs, cursor)
  {
    if cs == [] then source[cursor..]
    else
      var c := cs[0];
      source[cursor..c.startByte]
      + (Token(Begin, c.Label()) +
        (source[c.startByte..c.endByte] + (Token(End, c.Label()) + Marked(source, cs[1..], c.endByte))))
  }

  ghost function RangesOf(source: string, cs: seq<Classification>, cursor: int): seq<Range>
    requires Placed(source, cs, cursor)
  {
    if cs == [] then []
    else [Range(cs[0].Label(), source[cs[0].startByte..cs[0].endByte])] + RangesOf(source, cs[1..], cs[0].endByte)
  }

  // -------------------------------------------------------------- one token

  lemma {:induction false} IdRunStops(id: string, tail: string)
    requires forall i | 0 <= i < |id| :: IdCharacter(id[i])
    requires tail != [] && !IdCharacter(tail[0])
    ensures IdRun(id + tail) == |id|
    decreases |id|
  {
    if id != [] {
      IdRunStops(id[1..], tail);
      assert (id + tail)[1..] == id[1..] + tail;
    } else {
      assert id + tail == tail;
    }
  }

  lemma PrefixOfConcat(front: string, back: string)
    ensures front <= front + back && (front + back)[|front|..] == back
  {
  }

  lemma AnchorMatches(id: string, tail: string)
    requires MarkerId(id) && tail != [] && tail[0] == ' '
    ensures MatchLabel("anchor=" + (id + tail)) == Some(7 + |id|)
  {
    hide MarkerId;
    PrefixOfConcat("anchor=", id + tail);
    assert forall i | 0 <= i < |id| :: IdCharacter(id[i]) by { IdIsRun(id); }
    IdRunStops(id, tail);
    PrefixOfConcat(id, tail);
    SliceOfConcat("anchor=", id, tail);
  }

  lemma IdIsRun(id: string)
    requires MarkerId(id)
    ensures forall i | 0 <= i < |id| :: IdCharacter(id[i])
  {
  }

  lemma SliceOfConcat(a: string, b: string, c: string)
    ensures (a + (b + c))[|a|..|a| + |b|] == b
  {
  }

  lemma PlainMatches(tail: string)
    ensures MatchLabel("non-normative" + tail) == Some(13)
  {
    PrefixOfConcat("non-normative", tail);
    assert ("non-normative" + tail)[0] != "anchor="[0];
  }

  lemma LabelMatches(c: Classification, tail: string)
    requires ValidKind(c) && tail != [] && tail[0] == ' '
    ensures MatchLabel(c.Label() + tail) == Some(|c.Label()|)
  {
    hide MatchLabel, MarkerId;
    if c.kind == Anchor {
      AnchorMatches(c.markerId, tail);
      Associative("anchor=", c.markerId, tail);
    } else {
      PlainMatches(tail);
    }
  }

  lemma WordMatches(boundary: Boundary, tail: string)
    ensures MatchWord(boundary.Word() + tail) == Some(boundary)
  {
    var s := boundary.Word() + tail;
    assert s[..|boundary.Word()|] == boundary.Word();
    if boundary == End {
      assert s[1] != Begin.Word()[1];
    }
  }

  lemma TokenSplits(a: string, b: string, c: string, d: string, e: string)
    ensures (a + (b + (c + d))) + e == a + (b + (c + (d + e)))
  {
  }

  /** A printed token is read back as itself, whatever follows it. */
  lemma TokenMatches(document: string, at: nat, boundary: Boundary, c: Classification, tail: string)
    requires at <= |document| && ValidKind(c)
    requires document[at..] == Token(boundary, c.Label()) + tail
    ensures var m := Match(at, at + |Token(boundary, c.Label())|, boundary, c.Label());
      MatchAt(document, at) == Some(m) && document[m.end..] == tail
  {
    hide MatchLabel, MatchWord, IdRun, MarkerId;
    var word := boundary.Word();
    var afterLabel := CLOSE + tail;
    var afterWord := c.Label() + afterLabel;
    var afterPrefix := word + afterWord;
    TokenSplits(PREFIX, word, c.Label(), CLOSE, tail);
    assert document[at..] == PREFIX + afterPrefix;
    PrefixOfConcat(PREFIX, afterPrefix);
    PrefixOfConcat(word, afterWord);
    PrefixOfConcat(c.Label(), afterLabel);
    PrefixOfConcat(CLOSE, tail);
    WordMatches(boundary, afterWord);
    LabelMatches(c, afterLabel);
    SuffixOf(document, at, Token(boundary, c.Label()), tail);
  }

  lemma SuffixOf(document: string, at: nat, front: string, back: string)
    requires at <= |document| && document[at..] == front + back
    ensures at + |front| <= |document| && document[at + |front|..] == back
    ensures document[at..at + |front|] == front
  {
    assert |document[at..]| == |front| + |back|;
    assert document[at + |front|..] == document[at..][|front|..];
    assert document[at..at + |front|] == document[at..][..|front|];
  }

  // ------------------------------------------------------- text without tokens

  /** The token prefix cannot overlap its own start. */
  lemma PrefixStartsOnce(j: nat)
    requires 0 < j < |PREFIX|
    ensures PREFIX[j] != '<'
  {
  }

  /** No token starts in token-free text, not even one that would run across
      its end into a printed token. */
  lemma NoMatchAcross(piece: string, tail: string)
    requires piece != [] && !Contains(piece, PREFIX)
    requires tail == [] || tail[0] == '<'
    ensures !(PREFIX <= piece + tail)
  {
    if |piece| >= |PREFIX| {
      assert piece[0..] == piece;
      assert (piece + tail)[..|PREFIX|] == piece[..|PREFIX|];
    } else {
      PrefixStartsOnce(|piece|);
      assert tail != [] ==> (piece + tail)[|piece|] == '<';
    }
  }

  lemma ContainsInSlice(source: string, from: int, to: int)
    requires 0 <= from <= to <= |source| && Contains(source[from..to], PREFIX)
    ensures Contains(source, PREFIX)
  {
    var i :| 0 <= i <= to - from && PREFIX <= source[from..to][i..];
    assert source[from + i..][..|PREFIX|] == source[from..to][i..][..|PREFIX|];
    assert PREFIX <= source[from + i..];
  }

  lemma NoTokenAt(document: string, at: nat)
    requires at <= |document| && !(PREFIX <= document[at..])
    ensures MatchAt(document, at) == None
  {
  }

  /** No token starts at the first character of a token-free text. */
  lemma FirstHasNoMatch(document: string, at: nat, piece: string, tail: string)
    requires at <= |document| && document[at..] == piece + tail && piece != []
    requires !Contains(piece, PREFIX) && (tail == [] || tail[0] == '<')
    ensures at < |document| && document[at] == piece[0] && document[at + 1..] == piece[1..] + tail
    ensures MatchAt(document, at) == None && !Contains(piece[1..], PREFIX)
  {
    hide MatchAt, Contains;
    NoMatchAcross(piece, tail);
    NoTokenAt(document, at);
    if Contains(piece[1..], PREFIX) {
      assert piece[1..|piece|] == piece[1..];
      ContainsInSlice(piece, 1, |piece|);
    }
    Associative([piece[0]], piece[1..], tail);
    assert piece == [piece[0]] + piece[1..];
    SuffixOf(document, at, [piece[0]], piece[1..] + tail);
    assert document[at..at + 1][0] == document[at];
  }

  lemma {:induction false} PieceHasNoMatch(document: string, at: nat, piece: string, tail: string)
    requires at <= |document| && document[at..] == piece + tail
    requires !Contains(piece, PREFIX) && (tail == [] || tail[0] == '<')
    ensures at + |piece| <= |document| && document[at + |piece|..] == tail
    ensures document[at..at + |piece|] == piece
    ensures FindAll(document, at) == FindAll(document, at + |piece|)
    ensures Strip(document, at) == piece + Strip(document, at + |piece|)
    decreases |piece|
  {
    hide MatchAt, Contains;
    SuffixOf(document, at, piece, tail);
    if piece != [] {
      FirstHasNoMatch(document, at, piece, tail);
      PieceHasNoMatch(document, at + 1, piece[1..], tail);
      assert piece == [document[at]] + piece[1..];
      Associative([document[at]], piece[1..], Strip(document, at + |piece|));
    }
  }

  // -------------------------------------------------------------- round trip

  lemma TokenHead(boundary: Boundary, name: string, tail: string)
    ensures Token(boundary, name) + tail != [] && (Token(boundary, name) + tail)[0] == '<'
  {
  }

  /** Token-free text and the token behind it, as the scanner sees them. */
  lemma PieceThenToken(document: string, at: nat, piece: string, boundary: Boundary, c: Classification, tail: string)
    returns (token: nat, next: nat)
    requires at <= |document| && ValidKind(c) && !Contains(piece, PREFIX)
    requires document[at..] == piece + (Token(boundary, c.Label()) + tail)
    ensures at <= token < next <= |document| && document[at..token] == piece && document[next..] == tail
    ensures FindAll(document, at) == [Match(token, next, boundary, c.Label())] + FindAll(document, next)
    ensures Strip(document, at) == piece + Strip(document, next)
  {
    hide Token, MatchAt, Contains, IdRun, MatchLabel, MatchWord;
    TokenHead(boundary, c.Label(), tail);
    PieceHasNoMatch(document, at, piece, Token(boundary, c.Label()) + tail);
    token := at + |piece|;
    TokenMatches(document, token, boundary, c, tail);
    next := token + |Token(boundary, c.Label())|;
  }

  lemma MarkedHead(source: string, cs: seq<Classification>, cursor: int)
    requires cs != [] && Placed(source, cs, cursor)
    ensures var c := cs[0];
      && 0 <= cursor <= c.startByte < c.endByte <= |source| && Placed(source, cs[1..], c.endByte)
      && Marked(source, cs, cursor) == source[cursor..c.startByte]
         + (Token(Begin, c.Label()) +
           (source[c.startByte..c.endByte] + (Token(End, c.Label()) + Marked(source, cs[1..], c.endByte))))
  {
  }

  /** What the scanner finds in one printed range, and behind it. */
  lemma RangeIsFound(source: string, cs: seq<Classification>, cursor: int, document: string, at: nat)
    returns (begin: nat, content: nat, end: nat, next: nat)
    requires cs != [] && Placed(source, cs, cursor) && ValidKind(cs[0]) && !Contains(source, PREFIX)
    requires at <= |document| && document[at..] == Marked(source, cs, cursor)
    ensures at <= begin < content <= end < next <= |document|
    ensures document[content..end] == source[cs[0].startByte..cs[0].endByte]
    ensures document[next..] == Marked(source, cs[1..], cs[0].endByte)
    ensures FindAll(document, at)
         == [Match(begin, content, Begin, cs[0].Label())] +
           ([Match(end, next, End, cs[0].Label())] + FindAll(document, next))
    ensures Strip(document, at) == source[cursor..cs[0].endByte] + Strip(document, next)
  {
    hide MatchAt, Contains, FindAll, Strip, Token, Placed, MarkerId;
    MarkedHead(source, cs, cursor);
    hide Marked;
    var c := cs[0];
    PieceIsFree(source, cursor, c.startByte);
    PieceIsFree(source, c.startByte, c.endByte);
    var gap, payload := source[cursor..c.startByte], source[c.startByte..c.endByte];
    var atEnd := Token(End, c.Label()) + Marked(source, cs[1..], c.endByte);
    begin, content := PieceThenToken(document, at, gap, Begin, c, payload + atEnd);
    end, next := PieceThenToken(document, content, payload, End, c, Marked(source, cs[1..], c.endByte));
    assert source[cursor..c.endByte] == gap + payload;
  }

  lemma PieceIsFree(source: string, from: int, to: int)
    requires 0 <= from <= to <= |source| && !Contains(source, PREFIX)
    ensures !Contains(source[from..to], PREFIX)
  {
    if Contains(source[from..to], PREFIX) {
      ContainsInSlice(source, from, to);
    }
  }

  ghost predicate Unseen(cs: seq<Classification>, seen: set<string>) {
    forall c | c in cs && c.kind == Anchor :: c.markerId !in seen
  }

  /** The ranges of a complete registry, some anchors of which are already read. */
  ghost predicate Readable(source: string, cs: seq<Classification>, cursor: int, seen: set<string>) {
    Placed(source, cs, cursor) && Labelled(source, cs) && DistinctAnchors(cs) && Unseen(cs, seen)
  }

  function SeenAfter(c: Classification, seen: set<string>): set<string> {
    if c.kind == Anchor then seen + {c.markerId} else seen
  }

  lemma ReadableRest(source: string, cs: seq<Classification>, cursor: int, seen: set<string>)
    requires cs != [] && Readable(source, cs, cursor, seen)
    ensures var c := cs[0];
      && 0 <= cursor <= c.startByte < c.endByte <= |source| && !Blank(source[c.startByte..c.endByte])
      && ValidKind(c) && (c.kind == Anchor ==> c.markerId !in seen)
      && Placed(source, cs, cursor) && Readable(source, cs[1..], c.endByte, SeenAfter(c, seen))
  {
    assert cs[0] in cs;
    forall c | c in cs[1..] && c.kind == Anchor && cs[0].kind == Anchor ensures c.markerId != cs[0].markerId {
      var i :| 0 <= i < |cs| - 1 && cs[1..][i] == c;
      assert cs[i + 1] == c;
    }
  }

  lemma {:induction false} ReadsBack(source: string, cs: seq<Classification>, cursor: int, document: string, at: nat,
                                     seen: set<string>)
    requires Readable(source, cs, cursor, seen) && !Contains(source, PREFIX)
    requires at <= |document| && document[at..] == Marked(source, cs, cursor)
    ensures Strip(document, at) == source[cursor..]
    ensures Read(document, FindAll(document, at), "", at, seen) == Ok(RangesOf(source, cs, cursor))
    decreases |cs|
  {
    hide MatchAt, Contains, FindAll, Strip, Read, InOrder;
    if cs == [] {
      TailHasNothing(source, cursor, document, at, seen);
    } else {
      hide Marked, Readable;
      ReadableRest(source, cs, cursor, seen);
      var c := cs[0];
      var begin, content, end, next := RangeIsFound(source, cs, cursor, document, at);
      ReadsBack(source, cs[1..], c.endByte, document, next, SeenAfter(c, seen));
      ReadRange(document, at, begin, content, end, next, c, FindAll(document, next), seen);
      JoinSlices(source, cursor, c.endByte);
    }
  }

  lemma JoinSlices(source: string, from: int, middle: int)
    requires 0 <= from <= middle <= |source|
    ensures source[from..middle] + source[middle..] == source[from..]
  {
  }

  lemma TailHasNothing(source: string, cursor: int, document: string, at: nat, seen: set<string>)
    requires 0 <= cursor <= |source| && !Contains(source, PREFIX)
    requires at <= |document| && document[at..] == source[cursor..]
    ensures Strip(document, at) == source[cursor..]
    ensures Read(document, FindAll(document, at), "", at, seen) == Ok([])
  {
    hide MatchAt, Contains;
    assert document[at..] == source[cursor..] + [];
    PieceIsFree(source, cursor, |source|);
    assert source[cursor..|source|] == source[cursor..];
    PieceHasNoMatch(document, at, source[cursor..], []);
    NothingFollows(document, at + |source[cursor..]|);
  }

  lemma NothingFollows(document: string, at: nat)
    requires at == |document|
    ensures FindAll(document, at) == [] && Strip(document, at) == []
  {
  }

  lemma LabelPrefix(c: Classification)
    requires ValidKind(c)
    ensures c.Label() != ""
    ensures "anchor=" <= c.Label() <==> c.kind == Anchor
    ensures c.kind == Anchor ==> c.Label()[7..] == c.markerId
  {
    if c.kind == NonNormative {
      assert c.Label()[0] != "anchor="[0];
    } else {
      assert c.Label()[..7] == "anchor=";
    }
  }

  lemma ReadRange(document: string, at: nat, begin: nat, content: nat, end: nat, next: nat, c: Classification,
                  rest: seq<Match>, seen: set<string>)
    requires ValidKind(c) && (c.kind == Anchor ==> c.markerId !in seen)
    requires at <= begin < content <= end < next <= |document| && !Blank(document[content..end])
    requires InOrder(rest, next, |document|)
    ensures var matches := [Match(begin, content, Begin, c.Label())] + ([Match(end, next, End, c.Label())] + rest);
      && InOrder(matches, at, |document|)
      && Read(document, matches, "", at, seen)
         == Prepend([Range(c.Label(), document[content..end])], Read(document, rest, "", next, SeenAfter(c, seen)))
  {
    LabelPrefix(c);
    var endMatch := Match(end, next, End, c.Label());
    assert ([Match(begin, content, Begin, c.Label())] + ([endMatch] + rest))[1..] == [endMatch] + rest;
    assert ([endMatch] + rest)[1..] == rest;
  }

  /** Reading a materialized source gives exactly its ranges, in order, and
      deleting the tokens gives back the source. */
  lemma MarkerRoundTrip(source: string, cs: seq<Classification>)
    requires Placed(source, cs, 0) && Labelled(source, cs) && DistinctAnchors(cs) && !Contains(source, PREFIX)
    ensures Strip(Marked(source, cs, 0), 0) == source
    ensures Parsed(Marked(source, cs, 0)) == Ok(RangesOf(source, cs, 0))
  {
    var document := Marked(source, cs, 0);
    assert document[0..] == document && source[0..] == source;
    ReadsBack(source, cs, 0, document, 0, {});
  }

  // ----------------------------------------------------------- the operations

  datatype MaterializeError =
    | SourceHasMarkers | Malformed(parse: ParseError) | WrongCount | WrongRange(index: nat) | WrongPayload

  lemma {:induction false} RangesAre(source: string, cs: seq<Classification>, cursor: int)
    requires Placed(source, cs, cursor)
    ensures var ranges := RangesOf(source, cs, cursor);
      && |ranges| == |cs|
      && forall i | 0 <= i < |cs| ::
           && 0 <= cs[i].startByte <= cs[i].endByte <= |source|
           && ranges[i] == Range(cs[i].Label(), source[cs[i].startByte..cs[i].endByte])
    decreases |cs|
  {
    if cs != [] {
      RangesAre(source, cs[1..], cs[0].endByte);
    }
  }

  /** Compares a materialized document with its registry and its source. */
  method ValidateMaterialized(materialized: string, source: string, cs: seq<Classification>)
    returns (result: Result<(), MaterializeError>)
    requires Placed(source, cs, 0)
    ensures result.Ok? <==> Parsed(materialized) == Ok(RangesOf(source, cs, 0)) && Strip(materialized, 0) == source
  {
    hide Parsed, RangesOf, Strip;
    RangesAre(source, cs, 0);
    var parsed := Parse(materialized);
    if parsed.Err? {
      return Err(Malformed(parsed.error));
    }
    var ranges := parsed.value;
    if |ranges| != |cs| {
      return Err(WrongCount);
    }
    for i := 0 to |cs|
      invariant forall j | 0 <= j < i :: ranges[j] == RangesOf(source, cs, 0)[j]
    {
      if ranges[i].classification != cs[i].Label() || ranges[i].contents != source[cs[i].startByte..cs[i].endByte] {
        return Err(WrongRange(i));
      }
    }
    assert ranges == RangesOf(source, cs, 0);
    if Strip(materialized, 0) != source {
      return Err(WrongPayload);
    }
    return Ok(());
  }

  function MarkedRange(source: string, c: Classification, cursor: int): string
    requires 0 <= cursor <= c.startByte < c.endByte <= |source|
  {
    source[cursor..c.startByte] + Token(Begin, c.Label()) + source[c.startByte..c.endByte] + Token(End, c.Label())
  }

  method PrintMarked(source: string, cs: seq<Classification>) returns (output: string)
    requires Placed(source, cs, 0)
    ensures output == Marked(source, cs, 0)
  {
    hide Marked, Placed;
    output := "";
    var cursor: int := 0;
    assert cs[0..] == cs;
    for i := 0 to |cs|
      invariant Placed(source, cs[i..], cursor)
      invariant Marked(source, cs, 0) == output + Marked(source, cs[i..], cursor)
    {
      MarkedNext(source, cs, i, cursor);
      var piece := MarkedRange(source, cs[i], cursor);
      Associative(output, piece, Marked(source, cs[i + 1..], cs[i].endByte));
      output := output + piece;
      cursor := cs[i].endByte;
    }
    MarkedEnd(source, cs[|cs|..], cursor);
    output := output + source[cursor..];
  }

  /** Prints the ordered classifications of a complete registry. It refuses a
      source with marker text, and its self-check never fails. */
  method Materialize(source: string, cs: seq<Classification>) returns (result: Result<string, MaterializeError>)
    requires Readable(source, cs, 0, {})
    ensures result == if Contains(source, PREFIX) then Err(SourceHasMarkers) else Ok(Marked(source, cs, 0))
  {
    hide Marked, Strip, Parsed, RangesOf;
    if Contains(source, PREFIX) {
      return Err(SourceHasMarkers);
    }
    var output := PrintMarked(source, cs);
    MarkerRoundTrip(source, cs);
    var check := ValidateMaterialized(output, source, cs);
    if check.Err? {
      assert false;
    }
    return Ok(output);
  }

  lemma MarkedNext(source: string, cs: seq<Classification>, i: nat, cursor: int)
    requires i < |cs| && Placed(source, cs[i..], cursor)
    ensures var c := cs[i];
      && 0 <= cursor <= c.startByte < c.endByte <= |source|
      && Placed(source, cs[i + 1..], c.endByte)
      && Marked(source, cs[i..], cursor) == MarkedRange(source, c, cursor) + Marked(source, cs[i + 1..], c.endByte)
  {
    hide Token;
    assert cs[i..][1..] == cs[i + 1..];
    var c := cs[i];
    AssociativeFour(source[cursor..c.startByte], Token(Begin, c.Label()), source[c.startByte..c.endByte],
                    Token(End, c.Label()), Marked(source, cs[i + 1..], c.endByte));
  }

  lemma AssociativeFour(a: string, b: string, c: string, d: string, e: string)
    ensures a + (b + (c + (d + e))) == (a + b + c + d) + e
  {
  }

  lemma MarkedEnd(source: string, cs: seq<Classification>, cursor: int)
    requires cs == [] && Placed(source, cs, cursor)
    ensures 0 <= cursor <= |source| && Marked(source, cs, cursor) == source[cursor..]
  {
  }
}
