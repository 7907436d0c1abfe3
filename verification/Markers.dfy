/** Marker tokens in a document: printing the classified ranges of a source as
    tokens, and reading them back. A document has one character per byte. */
module Markers {
  import opened Results

  const PREFIX := "<!-- partitur:mark"
  const CLOSE := " -->"

  datatype Boundary = Begin | End {
    function Word(): string {
      match this
      case Begin => " begin "
      case End => " end "
    }
  }

  datatype Kind = Anchor | NonNormative | Other(text: string)

  datatype Classification = Classification(startByte: int, endByte: int, kind: Kind, markerId: string) {
    function Label(): string {
      match kind
      case Anchor => "anchor=" + markerId
      case NonNormative => "non-normative"
      case Other(text) => text
    }
  }

  predicate Alphanumeric(c: char) {
    'A' <= c <= 'Z' || 'a' <= c <= 'z' || '0' <= c <= '9'
  }

  predicate IdCharacter(c: char) {
    Alphanumeric(c) || c == '.' || c == '_' || c == '/' || c == '-'
  }

  /** Words of letters and digits, with single separators between them. */
  predicate MarkerId(id: string) {
    && id != [] && Alphanumeric(id[0]) && Alphanumeric(id[|id| - 1])
    && (forall i | 0 <= i < |id| :: IdCharacter(id[i]))
    && (forall i | 0 <= i < |id| - 1 :: Alphanumeric(id[i]) || Alphanumeric(id[i + 1]))
  }

  predicate Whitespace(c: char) {
    c == ' ' || c == '\t' || c == '\r' || c == '\n'
  }

  predicate Blank(s: string) {
    forall i | 0 <= i < |s| :: Whitespace(s[i])
  }

  // ----------------------------------------------------------------- tokens

  function Token(boundary: Boundary, name: string): string {
    PREFIX + (boundary.Word() + (name + CLOSE))
  }

  function IdRun(s: string): (n: nat)
    ensures n <= |s| && (forall i | 0 <= i < n :: IdCharacter(s[i])) && (n < |s| ==> !IdCharacter(s[n]))
  {
    if s == [] || !IdCharacter(s[0]) then 0 else 1 + IdRun(s[1..])
  }

  /** Length of the label at the start of `s`, if there is one. */
  function MatchLabel(s: string): (length: Option<nat>)
    ensures length.Some? ==> length.value <= |s|
  {
    if "anchor=" <= s then
      var n := IdRun(s[7..]);
      if MarkerId(s[7..7 + n]) then Some(7 + n) else None
    else if "non-normative" <= s then Some(13)
    else None
  }

  datatype Match = Match(start: nat, end: nat, boundary: Boundary, name: string)

  function MatchWord(s: string): Option<Boundary> {
    if Begin.Word() <= s then Some(Begin)
    else if End.Word() <= s then Some(End)
    else None
  }

  /** The marker token that starts exactly at a position. */
  function MatchAt(document: string, start: nat): (m: Option<Match>)
    requires start <= |document|
    ensures m.Some? ==> m.value.start == start < m.value.end <= |document|
  {
    var s := document[start..];
    if !(PREFIX <= s) then None
    else
      var afterPrefix := s[|PREFIX|..];
      match MatchWord(afterPrefix)
      case None => None
      case Some(boundary) =>
        var afterWord := afterPrefix[|boundary.Word()|..];
        match MatchLabel(afterWord)
        case None => None
        case Some(n) =>
          if CLOSE <= afterWord[n..]
          then Some(Match(start, start + |PREFIX| + |boundary.Word()| + n + |CLOSE|, boundary, afterWord[..n]))
          else None
  }

  ghost predicate InOrder(matches: seq<Match>, from: nat, length: nat) {
    if matches == [] then from <= length
    else from <= matches[0].start < matches[0].end <= length && InOrder(matches[1..], matches[0].end, length)
  }

  /** All tokens from a position on: leftmost first, not overlapping. */
  function FindAll(document: string, from: nat): (matches: seq<Match>)
    requires from <= |document|
    ensures InOrder(matches, from, |document|)
    decreases |document| - from
  {
    match MatchAt(document, from)
    case Some(m) => [m] + FindAll(document, m.end)
    case None => if from == |document| then [] else FindAll(document, from + 1)
  }

  /** The document from a position on, without its tokens. */
  function Strip(document: string, from: nat): string
    requires from <= |document|
    decreases |document| - from
  {
    match MatchAt(document, from)
    case Some(m) => Strip(document, m.end)
    case None => if from == |document| then [] else [document[from]] + Strip(document, from + 1)
  }

  predicate Contains(document: string, text: string) {
    exists i | 0 <= i <= |document| :: text <= document[i..]
  }

  // ---------------------------------------------------------------- reading

  datatype Range = Range(classification: string, contents: string)

  datatype ParseError = MalformedToken | NestedRange | DuplicateId | UnmatchedEnd | EmptyRange | UnclosedRange

  type Ranges = Result<seq<Range>, ParseError>

  /** Reads the ranges of the remaining tokens. `open` is the label of the open
      range, whose contents start at `contentStart`; it is empty when none is. */
  function Read(document: string, matches: seq<Match>, open: string, contentStart: nat, seen: set<string>): Ranges
    requires InOrder(matches, contentStart, |document|)
  {
    if matches == [] then
      if open != "" then Err(UnclosedRange) else Ok([])
    else
      var m, rest := matches[0], matches[1..];
      match m.boundary
      case Begin =>
        if open != "" then Err(NestedRange)
        else if "anchor=" <= m.name && m.name[7..] in seen then Err(DuplicateId)
        else Read(document, rest, m.name, m.end, if "anchor=" <= m.name then seen + {m.name[7..]} else seen)
      case End =>
        if open == "" || m.name != open then Err(UnmatchedEnd)
        else
          var contents := document[contentStart..m.start];
          if Blank(contents) then Err(EmptyRange)
          else
            match Read(document, rest, "", m.end, seen)
            case Err(error) => Err(error)
            case Ok(ranges) => Ok([Range(m.name, contents)] + ranges)
  }

  ghost function Parsed(document: string): Ranges {
    if Contains(Strip(document, 0), PREFIX) then Err(MalformedToken)
    else Read(document, FindAll(document, 0), "", 0, {})
  }

  method Parse(document: string) returns (result: Ranges)
    ensures result == Parsed(document)
  {
    hide MatchAt, FindAll, Strip, Contains, Blank;
    var remainder := Strip(document, 0);
    var matches := FindAll(document, 0);
    if Contains(remainder, PREFIX) {
      return Err(MalformedToken);
    }
    var seen: set<string> := {};
    var ranges: seq<Range> := [];
    var open := "";
    var contentStart: nat, position: nat := 0, 0;
    assert matches[0..] == matches &&
      Prepend([], Read(document, matches, "", 0, {})) == Read(document, matches, "", 0, {}) by {
      PrependNothing(Read(document, matches, "", 0, {}));
    }
    for i := 0 to |matches|
      invariant contentStart <= position && InOrder(matches[i..], position, |document|)
      invariant open != "" ==> contentStart == position
      invariant Read(document, matches, "", 0, {}) ==
                  Prepend(ranges, Read(document, matches[i..], open, position, seen))
    {
      var m := matches[i];
      assert matches[i..][0] == m && matches[i..][1..] == matches[i + 1..];
      match m.boundary {
        case Begin =>
          if open != "" {
            return Err(NestedRange);
          }
          if "anchor=" <= m.name {
            if m.name[7..] in seen {
              return Err(DuplicateId);
            }
            seen := seen + {m.name[7..]};
          }
          open := m.name;
          contentStart := m.end;
        case End =>
          if open == "" || m.name != open {
            return Err(UnmatchedEnd);
          }
          var contents := document[contentStart..m.start];
          if Blank(contents) {
            return Err(EmptyRange);
          }
          PrependAgain(ranges, Range(m.name, contents), Read(document, matches[i + 1..], "", m.end, seen));
          ranges := ranges + [Range(m.name, contents)];
          open := "";
      }
      position := m.end;
    }
    if open != "" {
      return Err(UnclosedRange);
    }
    assert ranges + [] == ranges;
    return Ok(ranges);
  }

  ghost function Prepend(ranges: seq<Range>, rest: Ranges): Ranges {
    match rest
    case Ok(more) => Ok(ranges + more)
    case Err(error) => Err(error)
  }

  lemma PrependNothing(rest: Ranges)
    ensures Prepend([], rest) == rest
  {
    if rest.Ok? {
      assert [] + rest.value == rest.value;
    }
  }

  lemma PrependAgain(ranges: seq<Range>, range: Range, rest: Ranges)
    ensures Prepend(ranges, Prepend([range], rest)) == Prepend(ranges + [range], rest)
  {
    if rest.Ok? {
      assert ranges + ([range] + rest.value) == ranges + [range] + rest.value;
    }
  }
}
