/** What a marked document is: which texts are tokens, which tokens count, and
    which lists of tokens are ranges, each said without the scanner. */
module MarkerGrammar {
  import opened Results
  import opened Markers
  import opened Materialize

  // --------------------------------------------------------------------- tokens

  predicate LetterOrDigit(c: char) {
    || 'a' <= c <= 'z'
    || 'A' <= c <= 'Z'
    || '0' <= c <= '9'
  }

  ghost predicate IsWord(id: string) {
    id != "" && forall i | 0 <= i < |id| :: LetterOrDigit(id[i])
  }

  /** A word of letters and digits, alone or with a separator and an id behind. */
  ghost predicate IsId(id: string)
    decreases |id|
  {
    IsWord(id) || exists n | 0 < n < |id| :: IsWord(id[..n]) && id[n] in "._/-" && IsId(id[n + 1..])
  }

  function WordLength(id: string): (n: nat)
    ensures n <= |id| && (forall i | 0 <= i < n :: Alphanumeric(id[i])) && (n < |id| ==> !Alphanumeric(id[n]))
  {
    if id == "" || !Alphanumeric(id[0]) then 0 else 1 + WordLength(id[1..])
  }

  /** An id is a word alone, or goes on as an id behind one separator. */
  lemma WordThenId(id: string, n: nat)
    requires 0 < n < |id| && forall i | 0 <= i < n :: Alphanumeric(id[i])
    requires !Alphanumeric(id[n])
    ensures MarkerId(id) <==> id[n] in "._/-" && MarkerId(id[n + 1..])
  {
    var rest := id[n + 1..];
    assert forall i | 0 <= i < |rest| :: rest[i] == id[n + 1 + i];
    if MarkerId(id) {
      assert IdCharacter(id[n]) && n < |id| - 1 && Alphanumeric(id[n + 1]);
      assert rest[0] == id[n + 1] && rest[|rest| - 1] == id[|id| - 1];
    }
    if id[n] in "._/-" && MarkerId(rest) {
      assert rest[0] == id[n + 1] && rest[|rest| - 1] == id[|id| - 1];
      assert forall i | n < i < |id| :: id[i] == rest[i - n - 1];
      assert forall i | 0 <= i < n :: Alphanumeric(id[i]) && IdCharacter(id[i]);
    }
  }

  lemma WordIsId(id: string)
    requires id != "" && forall i | 0 <= i < |id| :: Alphanumeric(id[i])
    ensures MarkerId(id)
  {
  }

  lemma FirstWord(id: string, n: nat, k: nat)
    requires 0 < n < |id| && IsWord(id[..n]) && !LetterOrDigit(id[n])
    requires 0 < k < |id| && IsWord(id[..k]) && !LetterOrDigit(id[k])
    ensures n == k
  {
    assert forall i | 0 <= i < n :: id[..n][i] == id[i];
    assert forall i | 0 <= i < k :: id[..k][i] == id[i];
  }

  lemma NotAWord(id: string, n: nat)
    requires n < |id| && !LetterOrDigit(id[n])
    ensures !IsWord(id)
  {
  }

  lemma NoOtherWord(id: string, n: nat)
    requires 0 < n < |id| && IsWord(id[..n]) && !LetterOrDigit(id[n])
    ensures forall k | 0 < k < |id| && IsWord(id[..k]) && id[k] in "._/-" :: k == n
  {
    hide IsWord;
    forall k | 0 < k < |id| && IsWord(id[..k]) && id[k] in "._/-" ensures k == n {
      FirstWord(id, n, k);
    }
  }

  lemma IdByWords(id: string, n: nat)
    requires 0 < n < |id| && IsWord(id[..n]) && !LetterOrDigit(id[n])
    ensures IsId(id) <==> id[n] in "._/-" && IsId(id[n + 1..])
  {
    NotAWord(id, n);
    NoOtherWord(id, n);
    hide IsWord, LetterOrDigit;
  }

  lemma NoWordFirst(id: string)
    requires id == "" || !Alphanumeric(id[0])
    ensures !MarkerId(id) && !IsId(id)
  {
    assert forall k | 0 < k < |id| :: id[..k][0] == id[0];
  }

  /** Ids by their characters are ids by their words. */
  lemma {:induction false} MarkerIdIff(id: string)
    ensures MarkerId(id) <==> IsId(id)
    decreases |id|
  {
    var n := WordLength(id);
    if n == 0 {
      NoWordFirst(id);
    } else if n == |id| {
      WordIsId(id);
    } else {
      hide MarkerId, IsId;
      WordThenId(id, n);
      IdByWords(id, n);
      MarkerIdIff(id[n + 1..]);
    }
  }

  ghost predicate IsName(name: string) {
    name == "non-normative" || ("anchor=" <= name && IsId(name[7..]))
  }

  function TokenText(boundary: Boundary, name: string): string {
    match boundary
    case Begin => "<!-- partitur:mark begin " + name + " -->"
    case End => "<!-- partitur:mark end " + name + " -->"
  }

  /** The text of a token stands at a position. */
  ghost predicate TokenAt(document: string, at: nat, boundary: Boundary, name: string) {
    at <= |document| && IsName(name) && TokenText(boundary, name) <= document[at..]
  }

  lemma TokenIsText(boundary: Boundary, name: string)
    ensures Token(boundary, name) == TokenText(boundary, name)
  {
    assert "<!-- partitur:mark begin " == PREFIX + Begin.Word() && "<!-- partitur:mark end " == PREFIX + End.Word();
  }

  lemma NameIsLabel(name: string) returns (c: Classification)
    requires IsName(name)
    ensures ValidKind(c) && c.Label() == name
  {
    if name == "non-normative" {
      c := Classification(0, 0, NonNormative, "");
    } else {
      MarkerIdIff(name[7..]);
      c := Classification(0, 0, Anchor, name[7..]);
      assert name == "anchor=" + name[7..];
    }
  }

  /** A text that stands at a position is read as its token. */
  lemma TokenIsRead(document: string, at: nat, boundary: Boundary, name: string)
    requires TokenAt(document, at, boundary, name)
    ensures MatchAt(document, at) == Some(Match(at, at + |TokenText(boundary, name)|, boundary, name))
  {
    hide IsName, MatchAt;
    var c := NameIsLabel(name);
    TokenIsText(boundary, name);
    var text := TokenText(boundary, name);
    assert document[at..] == text + document[at..][|text|..];
    TokenMatches(document, at, boundary, c, document[at..][|text|..]);
  }

  lemma LabelIsName(s: string)
    requires MatchLabel(s).Some?
    ensures IsName(s[..MatchLabel(s).value])
  {
    var n := MatchLabel(s).value;
    if "anchor=" <= s {
      var k := IdRun(s[7..]);
      assert s[..n][7..] == s[7..7 + k] && s[..7] == "anchor=";
      MarkerIdIff(s[7..7 + k]);
    } else {
      assert s[..13] == "non-normative";
    }
  }

  /** What is read as a token stands there as its text. */
  lemma ReadIsToken(document: string, at: nat)
    requires at <= |document| && MatchAt(document, at).Some?
    ensures var m := MatchAt(document, at).value;
      TokenAt(document, at, m.boundary, m.name) && document[at..m.end] == TokenText(m.boundary, m.name)
  {
    hide MatchAt, IsName;
    var m := MatchAt(document, at).value;
    var s := document[at..];
    MatchInParts(document, at);
    TokenInParts(s, m.boundary, m.name);
    hide TokenText;
    assert document[at..m.end] == s[..m.end - at];
  }

  lemma MatchInParts(document: string, at: nat)
    requires at <= |document| && MatchAt(document, at).Some?
    ensures var s, m := document[at..], MatchAt(document, at).value;
      && PREFIX <= s && m.boundary.Word() <= s[|PREFIX|..] && m.name <= s[|PREFIX|..][|m.boundary.Word()|..]
      && CLOSE <= s[|PREFIX|..][|m.boundary.Word()|..][|m.name|..] && IsName(m.name)
      && m.end == at + |PREFIX| + |m.boundary.Word()| + |m.name| + |CLOSE|
  {
    hide IsName, MatchLabel;
    LabelIsName(document[at..][|PREFIX|..][|MatchAt(document, at).value.boundary.Word()|..]);
  }

  lemma TokenInParts(s: string, boundary: Boundary, name: string)
    requires PREFIX <= s && boundary.Word() <= s[|PREFIX|..] && name <= s[|PREFIX|..][|boundary.Word()|..]
    requires CLOSE <= s[|PREFIX|..][|boundary.Word()|..][|name|..]
    ensures TokenText(boundary, name) <= s
    ensures |TokenText(boundary, name)| == |PREFIX| + |boundary.Word()| + |name| + |CLOSE|
  {
    var word, rest := boundary.Word(), s[|PREFIX|..][|boundary.Word()|..][|name|..][|CLOSE|..];
    TokenIsText(boundary, name);
    TokenSplits(PREFIX, word, name, CLOSE, rest);
    assert s == PREFIX + s[|PREFIX|..];
    assert s[|PREFIX|..] == word + s[|PREFIX|..][|word|..];
    assert s[|PREFIX|..][|word|..] == name + s[|PREFIX|..][|word|..][|name|..];
    assert s[|PREFIX|..][|word|..][|name|..] == CLOSE + rest;
    assert s == Token(boundary, name) + rest;
  }

  // ------------------------------------------------------------ tokens that count

  /** No token starts between two positions. */
  ghost predicate NoTokenIn(document: string, from: nat, to: nat) {
    forall p, boundary, name | from <= p < to :: !TokenAt(document, p, boundary, name)
  }

  /** The tokens are the leftmost ones, one behind the other. */
  ghost predicate Leftmost(document: string, matches: seq<Match>, from: nat)
    requires from <= |document|
  {
    if matches == [] then NoTokenIn(document, from, |document|)
    else
      var m := matches[0];
      && from <= m.start < m.end <= |document| && NoTokenIn(document, from, m.start)
      && TokenAt(document, m.start, m.boundary, m.name) && document[m.start..m.end] == TokenText(m.boundary, m.name)
      && Leftmost(document, matches[1..], m.end)
  }

  /** The document from a position on, without these tokens. */
  ghost function Between(document: string, matches: seq<Match>, from: nat): string
    requires InOrder(matches, from, |document|)
  {
    if matches == [] then document[from..]
    else document[from..matches[0].start] + Between(document, matches[1..], matches[0].end)
  }

  lemma NoTokenHere(document: string, at: nat)
    requires at <= |document| && MatchAt(document, at).None?
    ensures forall boundary, name :: !TokenAt(document, at, boundary, name)
  {
    forall boundary, name ensures !TokenAt(document, at, boundary, name) {
      if TokenAt(document, at, boundary, name) {
        TokenIsRead(document, at, boundary, name);
      }
    }
  }

  /** The scanner finds the leftmost tokens and strips exactly those. */
  lemma {:induction false} FindAllIsLeftmost(document: string, from: nat)
    requires from <= |document|
    ensures Leftmost(document, FindAll(document, from), from)
    ensures Strip(document, from) == Between(document, FindAll(document, from), from)
    decreases |document| - from
  {
    hide MatchAt, TokenAt, NoTokenIn;
    match MatchAt(document, from) {
      case Some(m) =>
        ReadIsToken(document, from);
        FindAllIsLeftmost(document, m.end);
        NothingIn(document, from);
      case None =>
        NothingIn(document, from);
        if from < |document| {
          FindAllIsLeftmost(document, from + 1);
          OneFurther(document, FindAll(document, from + 1), from);
        }
    }
  }

  lemma NothingIn(document: string, from: nat)
    requires from <= |document|
    ensures NoTokenIn(document, from, from) && document[from..from] == ""
    ensures from == |document| ==> document[from..] == ""
  {
  }

  lemma OneFurther(document: string, ms: seq<Match>, from: nat)
    requires from < |document| && MatchAt(document, from).None? && Leftmost(document, ms, from + 1)
    requires InOrder(ms, from + 1, |document|)
    ensures InOrder(ms, from, |document|) && Leftmost(document, ms, from)
    ensures Between(document, ms, from) == [document[from]] + Between(document, ms, from + 1)
  {
    hide MatchAt, TokenAt, NoTokenIn, TokenText;
    NoneFurther(document, from, if ms == [] then |document| else ms[0].start);
    OneMoreBetween(document, ms, from);
  }

  lemma OneMoreBetween(document: string, ms: seq<Match>, from: nat)
    requires from < |document| && InOrder(ms, from + 1, |document|)
    ensures InOrder(ms, from, |document|)
    ensures Between(document, ms, from) == [document[from]] + Between(document, ms, from + 1)
  {
    if ms == [] {
      FirstApart(document, from, |document|, "");
    } else {
      FirstBetween(document, ms, from);
      FirstBetween(document, ms, from + 1);
      hide Between, InOrder;
      FirstApart(document, from, ms[0].start, Between(document, ms[1..], ms[0].end));
    }
  }

  lemma FirstApart(document: string, from: nat, to: nat, rest: string)
    requires from < to <= |document|
    ensures document[from..to] + rest == [document[from]] + (document[from + 1..to] + rest)
  {
    assert document[from..to] == [document[from]] + document[from + 1..to];
  }

  lemma FirstBetween(document: string, ms: seq<Match>, from: nat)
    requires InOrder(ms, from, |document|) && ms != []
    ensures Between(document, ms, from) == document[from..ms[0].start] + Between(document, ms[1..], ms[0].end)
  {
  }

  lemma NoneFurther(document: string, from: nat, to: nat)
    requires from < to <= |document| && MatchAt(document, from).None? && NoTokenIn(document, from + 1, to)
    ensures NoTokenIn(document, from, to)
  {
    hide MatchAt, TokenAt;
    NoTokenHere(document, from);
  }

  // -------------------------------------------------------------------- ranges

  /** Tokens one behind the other, each with a name. */
  ghost predicate Spaced(document: string, ms: seq<Match>) {
    && (forall m | m in ms :: m.start < m.end <= |document| && m.name != "")
    && forall i | 0 < i < |ms| :: ms[i - 1].end <= ms[i].start
  }

  ghost predicate NamedBefore(ms: seq<Match>, j: nat, name: string)
    requires j <= |ms|
  {
    exists i | 0 <= i < j :: i % 2 == 0 && ms[i].name == name
  }

  /** What is wrong with token j, given that the tokens ahead of it are a list of
      ranges: begin and end alternate, an end has the name of its begin and a
      payload in front of it, and no anchor begins twice. */
  ghost function Fault(document: string, ms: seq<Match>, j: nat): Option<ParseError>
    requires Spaced(document, ms) && j < |ms|
  {
    var m := ms[j];
    if j % 2 == 0 then
      if m.boundary == End then Some(UnmatchedEnd)
      else if "anchor=" <= m.name && NamedBefore(ms, j, m.name) then Some(DuplicateId)
      else None
    else
      if m.boundary == Begin then Some(NestedRange)
      else if m.name != ms[j - 1].name then Some(UnmatchedEnd)
      else if forall p | ms[j - 1].end <= p < m.start :: document[p] in " \t\r\n" then Some(EmptyRange)
      else None
  }

  ghost predicate FaultlessUpTo(document: string, ms: seq<Match>, j: nat)
    requires Spaced(document, ms) && j <= |ms|
  {
    forall i | 0 <= i < j :: Fault(document, ms, i).None?
  }

  ghost predicate FirstFault(document: string, ms: seq<Match>, j: nat)
    requires Spaced(document, ms) && j < |ms|
  {
    FaultlessUpTo(document, ms, j) && Fault(document, ms, j).Some?
  }

  /** The range of the k-th pair of tokens. */
  ghost function RangeAt(document: string, ms: seq<Match>, k: nat): Range
    requires Spaced(document, ms) && 2 * k + 1 < |ms|
  {
    Range(ms[2 * k].name, document[ms[2 * k].end..ms[2 * k + 1].start])
  }

  ghost function RangesFrom(document: string, ms: seq<Match>, k: nat): seq<Range>
    requires Spaced(document, ms) && 2 * k <= |ms|
    decreases |ms| - 2 * k
  {
    if 2 * k + 1 < |ms| then [RangeAt(document, ms, k)] + RangesFrom(document, ms, k + 1) else []
  }

  /** What the reader answers for a list of tokens. */
  ghost predicate Answers(document: string, ms: seq<Match>, k: nat, answer: Ranges)
    requires Spaced(document, ms) && 2 * k <= |ms|
  {
    && (forall j | 2 * k <= j < |ms| && FirstFault(document, ms, j) :: answer == Err(Fault(document, ms, j).value))
    && (FaultlessUpTo(document, ms, |ms|) ==>
          answer == if |ms| % 2 == 1 then Err(UnclosedRange) else Ok(RangesFrom(document, ms, k)))
  }

  ghost function SeenBefore(ms: seq<Match>, j: nat): set<string>
    requires j <= |ms|
  {
    set i | 0 <= i < j && i % 2 == 0 && "anchor=" <= ms[i].name :: ms[i].name[7..]
  }

  lemma SeenIff(ms: seq<Match>, j: nat, name: string)
    requires j <= |ms| && "anchor=" <= name
    ensures name[7..] in SeenBefore(ms, j) <==> NamedBefore(ms, j, name)
  {
    assert name == "anchor=" + name[7..];
    if name[7..] in SeenBefore(ms, j) {
      var i :| 0 <= i < j && i % 2 == 0 && "anchor=" <= ms[i].name && ms[i].name[7..] == name[7..];
      assert ms[i].name == "anchor=" + ms[i].name[7..];
    }
  }

  lemma SeenMore(ms: seq<Match>, k: nat)
    requires 2 * k + 1 < |ms|
    ensures SeenBefore(ms, 2 * k + 2) ==
              SeenBefore(ms, 2 * k) + (if "anchor=" <= ms[2 * k].name then {ms[2 * k].name[7..]} else {})
  {
    var j := 2 * k;
    assert forall i | 0 <= i < j + 2 && i % 2 == 0 :: i < j || i == j;
    assert j % 2 == 0;
  }

  lemma BlankIff(document: string, from: nat, to: nat)
    requires from <= to <= |document|
    ensures Blank(document[from..to]) <==> forall p | from <= p < to :: document[p] in " \t\r\n"
  {
    var text := document[from..to];
    assert forall p | from <= p < to :: text[p - from] == document[p];
  }

  lemma ReadBegin(document: string, matches: seq<Match>, from: nat, seen: set<string>)
    requires InOrder(matches, from, |document|) && matches != []
    ensures var m, rest := matches[0], matches[1..];
      Read(document, matches, "", from, seen) ==
        if m.boundary == End then Err(UnmatchedEnd)
        else if "anchor=" <= m.name && m.name[7..] in seen then Err(DuplicateId)
        else Read(document, rest, m.name, m.end, seen + if "anchor=" <= m.name then {m.name[7..]} else {})
  {
    assert seen + {} == seen;
  }

  lemma ReadEnd(document: string, matches: seq<Match>, open: string, from: nat, seen: set<string>)
    requires InOrder(matches, from, |document|) && matches != [] && open != ""
    ensures var m, rest := matches[0], matches[1..];
      Read(document, matches, open, from, seen) ==
        if m.boundary == Begin then Err(NestedRange)
        else if m.name != open then Err(UnmatchedEnd)
        else if Blank(document[from..m.start]) then Err(EmptyRange)
        else Prepend([Range(m.name, document[from..m.start])], Read(document, rest, "", m.end, seen))
  {
    hide Blank;
  }

  lemma BeginOfPair(document: string, ms: seq<Match>, k: nat, from: nat)
    requires Spaced(document, ms) && 2 * k < |ms| && InOrder(ms[2 * k..], from, |document|)
    ensures InOrder(ms[2 * k + 1..], ms[2 * k].end, |document|)
    ensures var j := 2 * k;
      Read(document, ms[j..], "", from, SeenBefore(ms, j)) ==
        match Fault(document, ms, j)
        case Some(error) => Err(error)
        case None => Read(document, ms[j + 1..], ms[j].name, ms[j].end,
                       SeenBefore(ms, j) + if "anchor=" <= ms[j].name then {ms[j].name[7..]} else {})
  {
    var j, m := 2 * k, ms[2 * k];
    assert ms[j..][0] == m && ms[j..][1..] == ms[j + 1..];
    if "anchor=" <= m.name {
      SeenIff(ms, j, m.name);
    }
    ReadBegin(document, ms[j..], from, SeenBefore(ms, j));
    hide SeenBefore, NamedBefore, Read;
  }

  lemma EndOfPair(document: string, ms: seq<Match>, k: nat, seen: set<string>)
    requires Spaced(document, ms) && 2 * k + 1 < |ms| && InOrder(ms[2 * k + 1..], ms[2 * k].end, |document|)
    ensures InOrder(ms[2 * k + 2..], ms[2 * k + 1].end, |document|)
    ensures var j := 2 * k + 1;
      Read(document, ms[j..], ms[j - 1].name, ms[j - 1].end, seen) ==
        match Fault(document, ms, j)
        case Some(error) => Err(error)
        case None => Prepend([RangeAt(document, ms, k)], Read(document, ms[j + 1..], "", ms[j].end, seen))
  {
    var j, m := 2 * k + 1, ms[2 * k + 1];
    assert ms[j..][0] == m && ms[j..][1..] == ms[j + 1..];
    BlankIff(document, ms[j - 1].end, m.start);
    assert ms[j - 1] in ms;
    ReadEnd(document, ms[j..], ms[j - 1].name, ms[j - 1].end, seen);
    hide NamedBefore, Read, Blank;
  }

  lemma AnswersFault(document: string, ms: seq<Match>, k: nat, j: nat)
    requires Spaced(document, ms) && 2 * k <= j < |ms| && FirstFault(document, ms, j)
    ensures Answers(document, ms, k, Err(Fault(document, ms, j).value))
  {
    hide Fault, Spaced;
    assert forall i | 0 <= i < |ms| && FirstFault(document, ms, i) :: i == j;
  }

  lemma AnswersPair(document: string, ms: seq<Match>, k: nat, rest: Ranges)
    requires Spaced(document, ms) && 2 * k + 1 < |ms| && FaultlessUpTo(document, ms, 2 * k + 2)
    requires Answers(document, ms, k + 1, rest)
    ensures Answers(document, ms, k, Prepend([RangeAt(document, ms, k)], rest))
  {
    hide Fault, Spaced;
    assert forall j | 0 <= j < |ms| && FirstFault(document, ms, j) :: 2 * k + 2 <= j;
  }

  lemma AnswersEnd(document: string, ms: seq<Match>, k: nat, from: nat)
    requires Spaced(document, ms) && 2 * k == |ms| && InOrder([], from, |document|)
    ensures Answers(document, ms, k, Read(document, [], "", from, SeenBefore(ms, 2 * k)))
  {
    hide Fault, SeenBefore;
  }

  lemma HasName(document: string, ms: seq<Match>, j: nat)
    requires Spaced(document, ms) && j < |ms|
    ensures ms[j].name != ""
  {
    assert ms[j] in ms;
  }

  /** The reader answers the first fault, or the ranges of the pairs. */
  lemma {:induction false} ReadAnswers(document: string, ms: seq<Match>, k: nat, from: nat)
    requires Spaced(document, ms) && 2 * k <= |ms| && InOrder(ms[2 * k..], from, |document|)
    requires FaultlessUpTo(document, ms, 2 * k)
    ensures Answers(document, ms, k, Read(document, ms[2 * k..], "", from, SeenBefore(ms, 2 * k)))
    decreases |ms| - 2 * k
  {
    hide Fault, InOrder, SeenBefore, Answers, RangeAt, Spaced, Read, Prepend;
    var j := 2 * k;
    if j == |ms| {
      assert ms[j..] == [];
      AnswersEnd(document, ms, k, from);
    } else {
      BeginOfPair(document, ms, k, from);
      if Fault(document, ms, j).Some? {
        AnswersFault(document, ms, k, j);
      } else if j + 1 == |ms| {
        assert ms[j + 1..] == [];
        HasName(document, ms, j);
        OpenAtEnd(document, ms[j].name, ms[j].end,
          SeenBefore(ms, j) + if "anchor=" <= ms[j].name then {ms[j].name[7..]} else {});
        AnswersOpen(document, ms, k);
      } else {
        SeenMore(ms, k);
        EndOfPair(document, ms, k, SeenBefore(ms, j + 2));
        if Fault(document, ms, j + 1).Some? {
          AnswersFault(document, ms, k, j + 1);
        } else {
          ReadAnswers(document, ms, k + 1, ms[j + 1].end);
          AnswersPair(document, ms, k, Read(document, ms[j + 2..], "", ms[j + 1].end, SeenBefore(ms, j + 2)));
        }
      }
    }
  }

  lemma AnswersOpen(document: string, ms: seq<Match>, k: nat)
    requires Spaced(document, ms) && 2 * k + 1 == |ms| && FaultlessUpTo(document, ms, |ms|)
    ensures Answers(document, ms, k, Err(UnclosedRange))
  {
    hide Fault, Spaced;
  }

  lemma OpenAtEnd(document: string, open: string, from: nat, seen: set<string>)
    requires InOrder([], from, |document|)
    ensures open != "" ==> Read(document, [], open, from, seen) == Err(UnclosedRange)
  {
  }

  lemma {:induction false} FoundAreSpaced(document: string, ms: seq<Match>, from: nat)
    requires from <= |document| && InOrder(ms, from, |document|) && Leftmost(document, ms, from)
    ensures Spaced(document, ms) && (ms != [] ==> from <= ms[0].start)
    decreases |ms|
  {
    hide NoTokenIn, TokenText, IsName;
    if ms != [] {
      var m, rest := ms[0], ms[1..];
      NameIsGiven(m.name);
      FoundAreSpaced(document, rest, m.end);
      hide Leftmost, InOrder;
      SpacedMore(document, m, rest);
      assert ms == [m] + rest;
    }
  }

  lemma NameIsGiven(name: string)
    ensures IsName(name) ==> name != ""
  {
  }

  lemma SpacedMore(document: string, m: Match, rest: seq<Match>)
    requires m.start < m.end <= |document| && m.name != "" && Spaced(document, rest)
    requires rest != [] ==> m.end <= rest[0].start
    ensures Spaced(document, [m] + rest)
  {
    var ms := [m] + rest;
    forall i | 0 < i < |ms| ensures ms[i - 1].end <= ms[i].start {
      assert ms[i] == rest[i - 1] && (i > 1 ==> ms[i - 1] == rest[i - 2]);
    }
  }

  lemma {:induction false} RangesAreThose(document: string, ms: seq<Match>, k: nat)
    requires Spaced(document, ms) && 2 * k <= |ms|
    ensures |RangesFrom(document, ms, k)| == |ms| / 2 - k
    ensures forall i | k <= i < |ms| / 2 :: RangesFrom(document, ms, k)[i - k] == RangeAt(document, ms, i)
    decreases |ms| - 2 * k
  {
    if 2 * k + 1 < |ms| {
      RangesAreThose(document, ms, k + 1);
      var rest := RangesFrom(document, ms, k + 1);
      assert RangesFrom(document, ms, k) == [RangeAt(document, ms, k)] + rest;
      hide RangesFrom, RangeAt, Spaced;
      forall i | k <= i < |ms| / 2 ensures ([RangeAt(document, ms, k)] + rest)[i - k] == RangeAt(document, ms, i) {
        assert i > k ==> rest[i - (k + 1)] == RangeAt(document, ms, i);
      }
    } else {
      assert RangesFrom(document, ms, k) == [] && |ms| / 2 == k;
    }
  }

  // ------------------------------------------------------------------ the reader

  /** Text of a marker is left over when the tokens are taken out. */
  ghost predicate Malformed(document: string) {
    exists p | 0 <= p <= |Between(document, FindAll(document, 0), 0)| ::
      "<!-- partitur:mark" <= Between(document, FindAll(document, 0), 0)[p..]
  }

  lemma MalformedIff(document: string)
    ensures Contains(Strip(document, 0), PREFIX) <==> Malformed(document)
  {
    FindAllIsLeftmost(document, 0);
  }

  /** The answer for a document: malformed text first, then the first fault of
      its tokens, then an open end; otherwise the ranges of its pairs. */
  lemma ParsedIs(document: string)
    ensures var ms := FindAll(document, 0);
      && Leftmost(document, ms, 0) && Spaced(document, ms)
      && (Malformed(document) ==> Parsed(document) == Err(MalformedToken))
      && (!Malformed(document) ==>
            && (forall j | 0 <= j < |ms| && FirstFault(document, ms, j) ::
                  Parsed(document) == Err(Fault(document, ms, j).value))
            && (FaultlessUpTo(document, ms, |ms|) && |ms| % 2 == 1 ==> Parsed(document) == Err(UnclosedRange))
            && (FaultlessUpTo(document, ms, |ms|) && |ms| % 2 == 0 ==>
                  Parsed(document) == Ok(RangesFrom(document, ms, 0))))
  {
    var ms := FindAll(document, 0);
    FindAllIsLeftmost(document, 0);
    FoundAreSpaced(document, ms, 0);
    MalformedIff(document);
    hide Malformed, Contains, Leftmost, Fault, FindAll, Strip, Read;
    assert SeenBefore(ms, 0) == {} && ms[0..] == ms;
    ReadAnswers(document, ms, 0, 0);
  }

  /** Every list of tokens has a first fault or none at all. */
  lemma {:induction false} FaultOrNone(document: string, ms: seq<Match>, n: nat)
    requires Spaced(document, ms) && n <= |ms|
    ensures FaultlessUpTo(document, ms, n) || exists j | 0 <= j < n :: FirstFault(document, ms, j)
    decreases n
  {
    hide Fault, Spaced;
    if n > 0 {
      FaultOrNone(document, ms, n - 1);
      assert FaultlessUpTo(document, ms, n - 1) ==>
          FaultlessUpTo(document, ms, n) || FirstFault(document, ms, n - 1);
    }
  }

  /** A pair of tokens around a payload. */
  ghost predicate IsPair(document: string, b: Match, e: Match) {
    && b.boundary == Begin && e.boundary == End && b.name == e.name && b.end <= e.start <= |document|
    && exists p | b.end <= p < e.start :: document[p] !in " \t\r\n"
  }

  lemma PairIff(document: string, ms: seq<Match>, k: nat)
    requires Spaced(document, ms) && 2 * k + 1 < |ms|
    ensures Fault(document, ms, 2 * k).None? && Fault(document, ms, 2 * k + 1).None? <==>
              && IsPair(document, ms[2 * k], ms[2 * k + 1])
              && ("anchor=" <= ms[2 * k].name ==> !NamedBefore(ms, 2 * k, ms[2 * k].name))
  {
    assert (2 * k) % 2 == 0 && (2 * k + 1) % 2 == 1 && ms[2 * k + 1] in ms;
    hide NamedBefore;
  }

  ghost predicate BeginsDiffer(ms: seq<Match>) {
    forall k, l | 0 <= k < l < |ms| / 2 && "anchor=" <= ms[2 * k].name :: ms[2 * k].name != ms[2 * l].name
  }

  lemma DifferIff(ms: seq<Match>)
    ensures BeginsDiffer(ms) <==>
              forall l | 0 <= l < |ms| / 2 && "anchor=" <= ms[2 * l].name :: !NamedBefore(ms, 2 * l, ms[2 * l].name)
  {
    if BeginsDiffer(ms) {
      forall l | 0 <= l < |ms| / 2 && "anchor=" <= ms[2 * l].name ensures !NamedBefore(ms, 2 * l, ms[2 * l].name) {
        forall i | 0 <= i < 2 * l && i % 2 == 0 ensures ms[i].name != ms[2 * l].name {
          assert i == 2 * (i / 2);
        }
      }
    }
    if forall l | 0 <= l < |ms| / 2 && "anchor=" <= ms[2 * l].name :: !NamedBefore(ms, 2 * l, ms[2 * l].name) {
      forall k, l | 0 <= k < l < |ms| / 2 && "anchor=" <= ms[2 * k].name ensures ms[2 * k].name != ms[2 * l].name {
        assert (2 * k) % 2 == 0;
      }
    }
  }

  lemma FaultlessIff(document: string, ms: seq<Match>)
    requires Spaced(document, ms) && |ms| % 2 == 0
    ensures FaultlessUpTo(document, ms, |ms|) <==>
              && (forall k | 0 <= k < |ms| / 2 :: IsPair(document, ms[2 * k], ms[2 * k + 1]))
              && BeginsDiffer(ms)
  {
    DifferIff(ms);
    forall k | 0 <= k < |ms| / 2 ensures
      Fault(document, ms, 2 * k).None? && Fault(document, ms, 2 * k + 1).None? <==>
        && IsPair(document, ms[2 * k], ms[2 * k + 1])
        && ("anchor=" <= ms[2 * k].name ==> !NamedBefore(ms, 2 * k, ms[2 * k].name))
    {
      PairIff(document, ms, k);
    }
    hide Fault, IsPair, NamedBefore, Spaced, BeginsDiffer;
    if forall k | 0 <= k < |ms| / 2 :: Fault(document, ms, 2 * k).None? && Fault(document, ms, 2 * k + 1).None? {
      forall j | 0 <= j < |ms| ensures Fault(document, ms, j).None? {
        var k := j / 2;
        assert j == 2 * k || j == 2 * k + 1;
      }
    }
  }

  lemma OkIff(document: string)
    ensures var ms := FindAll(document, 0);
      && Spaced(document, ms)
      && (Parsed(document).Ok? <==> !Malformed(document) && |ms| % 2 == 0 && FaultlessUpTo(document, ms, |ms|))
      && (Parsed(document).Ok? ==> Parsed(document).value == RangesFrom(document, ms, 0))
  {
    var ms := FindAll(document, 0);
    ParsedIs(document);
    FaultOrNone(document, ms, |ms|);
    hide FindAll, Parsed, Malformed, Leftmost, Fault, RangesFrom, FaultlessUpTo, Spaced;
  }

  /** A document is accepted exactly when no malformed marker text is left and
      its tokens are pairs around payloads whose anchors differ; its ranges are
      the texts between the tokens of each pair. */
  lemma AcceptedIff(document: string)
    ensures var ms, parsed := FindAll(document, 0), Parsed(document);
      && (parsed.Ok? <==>
            && !Malformed(document) && |ms| % 2 == 0 && BeginsDiffer(ms)
            && (forall k | 0 <= k < |ms| / 2 :: IsPair(document, ms[2 * k], ms[2 * k + 1])))
      && (parsed.Ok? ==>
            && |parsed.value| == |ms| / 2
            && forall k | 0 <= k < |ms| / 2 ::
                 parsed.value[k] == Range(ms[2 * k].name, document[ms[2 * k].end..ms[2 * k + 1].start]))
  {
    var ms := FindAll(document, 0);
    OkIff(document);
    if |ms| % 2 == 0 {
      FaultlessIff(document, ms);
    }
    hide FindAll, Parsed, Malformed, FaultlessUpTo, IsPair, BeginsDiffer, RangesFrom, Spaced;
    if Parsed(document).Ok? {
      TheseRanges(document, ms, Parsed(document).value);
    }
  }

  lemma TheseRanges(document: string, ms: seq<Match>, ranges: seq<Range>)
    requires Spaced(document, ms) && ranges == RangesFrom(document, ms, 0)
    ensures |ranges| == |ms| / 2 && forall k | 0 <= k < |ms| / 2 ::
              ranges[k] == Range(ms[2 * k].name, document[ms[2 * k].end..ms[2 * k + 1].start])
  {
    RangesAreThose(document, ms, 0);
    hide RangesFrom, Spaced;
    forall k | 0 <= k < |ms| / 2 ensures ranges[k] == RangeAt(document, ms, k) {
      assert RangesFrom(document, ms, 0)[k - 0] == RangeAt(document, ms, k);
    }
  }
}
