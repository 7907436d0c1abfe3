/** The texts that JSON ingress accepts, as a grammar: RFC 8259 with integers of
    the safe range for numbers and with distinct names in every object. */
module JsonGrammar {
  import opened Results
  import opened Sequences
  import opened NameOrder
  import opened CanonicalJson
  import opened JsonParser
  import opened JsonRoundTrip
  import opened JsonIngress
  import opened Canonicity

  // -------------------------------------------------------------------- strings

  ghost predicate Spaces(t: string) {
    forall i | 0 <= i < |t| :: t[i] in " \t\n\r"
  }

  ghost predicate HexIs(c: char, d: nat) {
    || (d < 10 && c as int == '0' as int + d)
    || (10 <= d < 16 && (c as int == 'a' as int + d - 10 || c as int == 'A' as int + d - 10))
  }

  /** The escape \uXXXX of a code unit. */
  ghost predicate UnitText(p: string, unit: nat) {
    && |p| == 6 && p[..2] == "\\u"
    && HexIs(p[2], unit / 0x1000) && HexIs(p[3], unit / 0x100 % 0x10) && HexIs(p[4], unit / 0x10 % 0x10)
    && HexIs(p[5], unit % 0x10)
  }

  /** What may stand for one character inside a string. */
  ghost predicate CharText(p: string, c: char) {
    || (p == [c] && c as int >= 0x20 && c != '"' && c != '\\')
    || (p in {"\\\"", "\\\\", "\\/"} && c == p[1])
    || (p == "\\b" && c as int == 8) || (p == "\\t" && c as int == 9) || (p == "\\n" && c as int == 10)
    || (p == "\\f" && c as int == 12) || (p == "\\r" && c as int == 13)
    || UnitText(p, c as int)
    || (|p| == 12 && c as int >= 0x10000 && UnitText(p[..6], 0xD800 + (c as int - 0x10000) / 0x400)
        && UnitText(p[6..], 0xDC00 + (c as int - 0x10000) % 0x400))
  }

  ghost predicate CharsText(t: string, s: string)
    decreases |s|
  {
    if s == "" then t == ""
    else exists n | 0 < n <= |t| :: CharText(t[..n], s[0]) && CharsText(t[n..], s[1..])
  }

  ghost predicate StringText(t: string, s: string) {
    |t| >= 2 && t[0] == '"' && t[|t| - 1] == '"' && CharsText(t[1..|t| - 1], s)
  }

  lemma HexIff(c: char, d: nat)
    ensures HexIs(c, d) <==> IsHex(c) && HexValue(c) == d
  {
  }

  lemma UnitIff(p: string, unit: nat)
    requires |p| == 6
    ensures UnitText(p, unit) && unit < 0x10000 <==> CodeUnit(p) == Some(unit)
  {
    HexIff(p[2], unit / 0x1000);
    HexIff(p[3], unit / 0x100 % 0x10);
    HexIff(p[4], unit / 0x10 % 0x10);
    HexIff(p[5], unit % 0x10);
    hide HexIs, HexValue, IsHex;
    assert p[..2] == "\\u" <==> p[0] == '\\' && p[1] == 'u';
    if CodeUnit(p).Some? && CodeUnit(p).value == unit {
      DigitsOf(HexValue(p[2]), HexValue(p[3]), HexValue(p[4]), HexValue(p[5]));
    }
    if UnitText(p, unit) {
      assert IsHex(p[2]) && IsHex(p[3]) && IsHex(p[4]) && IsHex(p[5]);
      FromDigits(unit);
    }
  }

  lemma DigitsOf(a: nat, b: nat, c: nat, d: nat)
    requires a < 16 && b < 16 && c < 16 && d < 16
    ensures var unit := ((a * 16 + b) * 16 + c) * 16 + d;
      unit / 0x1000 == a && unit / 0x100 % 0x10 == b && unit / 0x10 % 0x10 == c && unit % 0x10 == d
  {
  }

  lemma FromDigits(unit: nat)
    ensures unit == ((unit / 0x1000 * 16 + unit / 0x100 % 0x10) * 16 + unit / 0x10 % 0x10) * 16 + unit % 0x10
  {
    var a, b := unit / 0x10, unit / 0x100;
    assert unit == a * 16 + unit % 0x10;
    assert a == b * 16 + a % 0x10;
    assert b == unit / 0x1000 * 16 + b % 0x10;
  }

  lemma UnitInFront(p: string, more: string)
    requires |p| == 6
    ensures CodeUnit(p + more) == CodeUnit(p)
  {
  }

  /** What is read as one character may stand for it. */
  lemma PieceIsText(t: string)
    requires t != "" && t[0] != '"' && NextPiece(t, true).Some?
    ensures var piece := NextPiece(t, true).value; CharText(t[..piece.length], piece.c)
  {
    var piece := NextPiece(t, true).value;
    var p := t[..piece.length];
    if piece.length == 2 {
      assert p == [t[0], t[1]];
    } else if piece.length >= 6 {
      hide HexIs;
      UnitOfPrefix(t);
      UnitIff(t[..6], CodeUnit(t).value);
      if piece.length == 12 {
        UnitOfPrefix(t[6..]);
        UnitIff(t[6..][..6], CodeUnit(t[6..]).value);
        assert p[..6] == t[..6] && p[6..] == t[6..][..6];
      }
    }
  }

  lemma UnitOfPrefix(t: string)
    requires |t| >= 6
    ensures CodeUnit(t[..6]) == CodeUnit(t)
  {
    UnitInFront(t[..6], t[6..]);
    assert t == t[..6] + t[6..];
  }

  /** What may stand for a character is read as it, whatever follows. */
  lemma TextIsPiece(p: string, c: char, more: string)
    requires CharText(p, c)
    ensures p != "" && p[0] != '"' && NextPiece(p + more, true) == Some(Piece(c, |p|))
  {
    var t := p + more;
    if UnitText(p, c as int) {
      hide HexIs;
      UnitIff(p, c as int);
      UnitInFront(p, more);
      assert p[..2][0] == p[0];
    } else if |p| == 12 {
      PairIsPiece(p, c, more);
    }
  }

  lemma PairIsPiece(p: string, c: char, more: string)
    requires |p| == 12 && c as int >= 0x10000
    requires UnitText(p[..6], 0xD800 + (c as int - 0x10000) / 0x400)
    requires UnitText(p[6..], 0xDC00 + (c as int - 0x10000) % 0x400)
    ensures p[0] != '"' && NextPiece(p + more, true) == Some(Piece(c, 12))
  {
    hide HexIs;
    var t, high, low := p + more, 0xD800 + (c as int - 0x10000) / 0x400, 0xDC00 + (c as int - 0x10000) % 0x400;
    UnitIff(p[..6], high);
    UnitIff(p[6..], low);
    assert p[..6][..2][0] == p[0] && p[..6][..2][1] == p[1];
    UnitInFront(p[..6], p[6..] + more);
    UnitInFront(p[6..], more);
    assert t == p[..6] + (p[6..] + more) && t[6..] == p[6..] + more;
  }

  /** A string that the strict reader reads is a text of the grammar. */
  lemma {:induction false} BodyIsText(t: string)
    requires ParseBody(t, true).Ok?
    ensures var s, rest := ParseBody(t, true).value.value, ParseBody(t, true).value.rest;
      var n := |t| - |rest|;
      n > 0 && t[n - 1] == '"' && t[n..] == rest && CharsText(t[..n - 1], s)
    decreases |t|
  {
    hide NextPiece, CharText, ParseBody, LowerCase, CharsText;
    BodyIsThere(t);
    if t[0] == '"' {
      BodyEnds(t);
      NoChars();
      assert t[..0] == "";
    } else {
      BodyGoesOn(t);
      PieceIsText(t);
      var piece := NextPiece(t, true).value;
      var more := t[piece.length..];
      BodyIsText(more);
      var rest := ParseBody(t, true).value.rest;
      var n := |more| - |rest|;
      var front := t[..piece.length + n - 1];
      assert front[..piece.length] == t[..piece.length] && front[piece.length..] == more[..n - 1];
      OneMoreChar(front, piece.length, piece.c, ParseBody(more, true).value.value);
    }
  }

  lemma NoChars()
    ensures CharsText("", "")
  {
  }

  lemma OneMoreChar(t: string, k: nat, c: char, s: string)
    requires 0 < k <= |t| && CharText(t[..k], c) && CharsText(t[k..], s)
    ensures CharsText(t, [c] + s)
  {
    hide CharText;
    assert ([c] + s)[1..] == s;
  }

  lemma BodyStep(t: string, piece: Piece, s: string, rest: string)
    requires t != "" && t[0] != '"' && NextPiece(t, true) == Some(piece)
    requires ParseBody(t[piece.length..], true) == Ok(Parsed(s, rest))
    ensures ParseBody(t, true) == Ok(Parsed([piece.c] + s, rest))
  {
    hide NextPiece;
  }

  /** A text of the grammar is read as the string it stands for. */
  lemma {:induction false} TextIsBody(t: string, s: string, rest: string)
    requires CharsText(t, s)
    ensures ParseBody(t + ("\"" + rest), true) == Ok(Parsed(s, rest))
    decreases |s|
  {
    hide NextPiece, CharText, ParseBody;
    var tail := "\"" + rest;
    if s == "" {
      assert t + tail == tail;
      BodyEnds(tail);
    } else {
      var n :| 0 < n <= |t| && CharText(t[..n], s[0]) && CharsText(t[n..], s[1..]);
      hide CharsText;
      TextIsBody(t[n..], s[1..], rest);
      TextIsPiece(t[..n], s[0], t[n..] + tail);
      assert t + tail == t[..n] + (t[n..] + tail);
      assert (t + tail)[n..] == t[n..] + tail;
      BodyStep(t + tail, Piece(s[0], n), s[1..], rest);
      assert s == [s[0]] + s[1..];
    }
  }

  // --------------------------------------------------------------------- values

  /** The names of an object and their values, in the order of the text. */
  type Pairs = seq<(string, Value)>

  ghost predicate IsObjectOf(members: map<string, Value>, pairs: Pairs) {
    && (forall i, j | 0 <= i < j < |pairs| :: pairs[i].0 != pairs[j].0)
    && (forall i | 0 <= i < |pairs| :: pairs[i].0 in members && members[pairs[i].0] == pairs[i].1)
    && (forall name | name in members :: exists i | 0 <= i < |pairs| :: pairs[i].0 == name)
  }

  /** The texts of a value, without spaces around it. */
  ghost predicate ValueText(t: string, v: Value)
    decreases |t|, 0
  {
    match v
    case Null => t == "null"
    case Bool(truth) => t == if truth then "true" else "false"
    case Number(n) => t == EncodeNumber(n)
    case Text(s) => StringText(t, s)
    case Array(items) =>
      && |t| >= 2 && t[0] == '[' && t[|t| - 1] == ']'
      && if items == [] then Spaces(t[1..|t| - 1]) else ItemsText(t[1..|t| - 1], items)
    case Object(members) =>
      && |t| >= 2 && t[0] == '{' && t[|t| - 1] == '}'
      && if members == map[] then Spaces(t[1..|t| - 1])
         else exists pairs: Pairs :: IsObjectOf(members, pairs) && MembersText(t[1..|t| - 1], pairs)
  }

  /** Spaces and a value. */
  ghost predicate SpacedValue(t: string, v: Value)
    decreases |t|, 1
  {
    exists i | 0 <= i <= |t| :: Spaces(t[..i]) && ValueText(t[i..], v)
  }

  ghost predicate PaddedValue(t: string, v: Value)
    decreases |t|, 2
  {
    exists k | 0 <= k <= |t| :: SpacedValue(t[..k], v) && Spaces(t[k..])
  }

  /** Values with commas between them. */
  ghost predicate ItemsText(t: string, items: seq<Value>)
    decreases |t|, 3
  {
    && items != []
    && if |items| == 1 then PaddedValue(t, items[0])
       else exists k | 0 <= k < |t| :: t[k] == ',' && PaddedValue(t[..k], items[0]) && ItemsText(t[k + 1..], items[1..])
  }

  /** Spaces, a string, and spaces. */
  ghost predicate NameText(t: string, name: string) {
    exists i, j | 0 <= i <= j <= |t| :: Spaces(t[..i]) && StringText(t[i..j], name) && Spaces(t[j..])
  }

  ghost predicate MemberText(t: string, pair: (string, Value))
    decreases |t|, 3
  {
    exists k | 0 <= k < |t| :: t[k] == ':' && NameText(t[..k], pair.0) && PaddedValue(t[k + 1..], pair.1)
  }

  ghost predicate MembersText(t: string, pairs: Pairs)
    decreases |t|, 4
  {
    && pairs != []
    && if |pairs| == 1 then MemberText(t, pairs[0])
       else exists k | 0 <= k < |t| ::
         t[k] == ',' && MemberText(t[..k], pairs[0]) && MembersText(t[k + 1..], pairs[1..])
  }

  // --------------------------------------------------------------------- spaces

  lemma {:induction false} SkipIs(t: string)
    ensures var rest := SkipSpace(t);
      var n := |t| - |rest|;
      Spaces(t[..n]) && t[n..] == rest && (rest != "" ==> rest[0] !in " \t\n\r")
    decreases |t|
  {
    if t != "" && IsSpace(t[0]) {
      SkipIs(t[1..]);
      var n := |t| - |SkipSpace(t)|;
      assert forall i | 0 < i < n :: t[..n][i] == t[1..][..n - 1][i - 1];
    }
  }

  lemma {:induction false} SkipPast(a: string, t: string)
    requires Spaces(a) && (t == "" || t[0] !in " \t\n\r")
    ensures SkipSpace(a + t) == t
    decreases |a|
  {
    if a == "" {
      assert a + t == t;
    } else {
      assert a[0] in " \t\n\r" && (a + t)[1..] == a[1..] + t;
      assert forall i | 0 <= i < |a[1..]| :: a[1..][i] == a[i + 1];
      SkipPast(a[1..], t);
    }
  }

  /** What the text of a value starts with. */
  lemma ValueStarts(t: string, v: Value)
    requires ValueText(t, v)
    ensures t != "" && t[0] !in " \t\n\r]}"
    ensures t[0] in "ntf" <==> v.Null? || v.Bool?
    ensures t[0] == '"' <==> v.Text?
    ensures t[0] == '[' <==> v.Array?
    ensures t[0] == '{' <==> v.Object?
  {
    if v.Number? {
      var size: nat := if v.number < 0 then -v.number else v.number;
      DecimalTrip(size);
      assert IsDigit(Decimal(size)[0]);
    }
  }

  // ------------------------------------------------ what is read is in the grammar

  /** The part of a text that a parser has read, which leaves the rest. */
  ghost predicate Leaves(text: string, n: nat, rest: string) {
    n <= |text| && text[n..] == rest
  }

  lemma WordIsText(t: string)
    requires ParseWord(t).Ok?
    ensures var p := ParseWord(t).value; var n := |t| - |p.rest|; Leaves(t, n, p.rest) && ValueText(t[..n], p.value)
  {
  }

  lemma NumberIsText(t: string)
    requires ParseNumber(t).Ok?
    ensures var p := ParseNumber(t).value; var n := |t| - |p.rest|; Leaves(t, n, p.rest) && ValueText(t[..n], p.value)
  {
    NumberIsCanonical(t);
    hide ParseNumber;
  }

  lemma StringIsText(t: string)
    requires t != "" && t[0] == '"' && ParseBody(t[1..], true).Ok?
    ensures var p := ParseBody(t[1..], true).value; var n := |t| - |p.rest|;
      Leaves(t, n, p.rest) && StringText(t[..n], p.value)
  {
    BodyIsText(t[1..]);
    hide ParseBody, CharsText;
    var n := |t| - |ParseBody(t[1..], true).value.rest|;
    assert t[..n][1..n - 1] == t[1..][..n - 2];
  }

  lemma TokenIsText(t: string)
    requires t != "" && t[0] !in "[{" && SkipSpace(t) == t && ParseValue(t, true).Ok?
    ensures var p := ParseValue(t, true).value; var n := |t| - |p.rest|;
              Leaves(t, n, p.rest) && ValueText(t[..n], p.value)
  {
    hide ParseBody, ParseWord, ParseNumber, StringText;
    if t[0] in "ntf" {
      WordIsText(t);
    } else if t[0] == '"' {
      StringIsText(t);
    } else {
      NumberIsText(t);
    }
  }

  lemma PartsOf(text: string, a: nat, n: nat)
    requires a + n <= |text|
    ensures text[a..][n..] == text[a + n..] && text[a..][..n] == text[a..a + n]
    ensures text[..a + n][..a] == text[..a] && text[..a + n][a..] == text[a..a + n]
  {
  }

  lemma BehindSpaces(text: string, t: string, n: nat, rest: string, v: Value)
    requires t == SkipSpace(text) && Leaves(t, n, rest) && ValueText(t[..n], v)
    ensures var m := |text| - |rest|; Leaves(text, m, rest) && SpacedValue(text[..m], v)
  {
    hide ValueText, SpacedValue, SkipSpace, Spaces;
    SkipIs(text);
    var a := |text| - |t|;
    PartsOf(text, a, n);
    SpacedFrom(text[..a + n], a, v);
  }

  lemma SpacedFrom(t: string, i: nat, v: Value)
    requires i <= |t| && Spaces(t[..i]) && ValueText(t[i..], v)
    ensures SpacedValue(t, v)
  {
    hide ValueText, Spaces;
  }

  lemma {:induction false} ValueIsText(text: string)
    requires ParseValue(text, true).Ok?
    ensures var p := ParseValue(text, true).value; var n := |text| - |p.rest|;
      Leaves(text, n, p.rest) && SpacedValue(text[..n], p.value)
    decreases |text|, 2
  {
    hide ParseValue, ValueText, SpacedValue, Leaves, SkipSpace;
    var t := SkipSpace(text);
    var p := ParseValue(text, true).value;
    SkippedStays(text);
    if t[0] == '[' {
      ArrayIsText(t);
    } else if t[0] == '{' {
      ObjectIsText(t);
    } else {
      TokenIsText(t);
    }
    BehindSpaces(text, t, |t| - |p.rest|, p.rest, p.value);
  }

  lemma ArrayParse(t: string)
    requires t != "" && t[0] == '[' && SkipSpace(t) == t && ParseValue(t, true).Ok?
    ensures var s, p := SkipSpace(t[1..]), ParseValue(t, true).value;
      if s != "" && s[0] == ']' then p == Parsed(Array([]), s[1..])
      else
        ParseItems(t[1..], true).Ok? &&
          p == Parsed(Array(ParseItems(t[1..], true).value.value), ParseItems(t[1..], true).value.rest)
  {
    hide ParseItems, ParseMembers, ParseBody, ParseNumber, ParseWord, SkipSpace;
  }

  lemma BracketsAround(t: string, n: nat, items: seq<Value>)
    requires 2 <= n <= |t| && t[0] == '[' && t[n - 1] == ']'
    requires if items == [] then Spaces(t[1..n - 1]) else ItemsText(t[1..n - 1], items)
    ensures ValueText(t[..n], Array(items))
  {
    hide ItemsText, Spaces;
    assert t[..n][1..n - 1] == t[1..n - 1];
  }

  /** Spaces up to the closing bracket or brace. */
  lemma NothingInside(t: string)
    requires t != "" && SkipSpace(t[1..]) != ""
    ensures var rest := SkipSpace(t[1..])[1..]; var n := |t| - |rest|;
      2 <= n <= |t| && Leaves(t, n, rest) && t[n - 1] == SkipSpace(t[1..])[0] && Spaces(t[1..n - 1])
  {
    SkipIs(t[1..]);
    hide SkipSpace, Spaces;
    var s := SkipSpace(t[1..]);
    var n := |t| - |s| + 1;
    assert t[1..][..n - 2] == t[1..n - 1] && t[n - 1..] == s;
  }

  lemma ArrayIsText(t: string)
    requires t != "" && t[0] == '[' && SkipSpace(t) == t && ParseValue(t, true).Ok?
    ensures var p := ParseValue(t, true).value; var n := |t| - |p.rest|;
              Leaves(t, n, p.rest) && ValueText(t[..n], p.value)
    decreases |t|, 1
  {
    hide ParseValue, ParseItems, SkipSpace, Spaces, ItemsText, ValueText;
    ArrayParse(t);
    var s, p := SkipSpace(t[1..]), ParseValue(t, true).value;
    var n := |t| - |p.rest|;
    if s != "" && s[0] == ']' {
      NothingInside(t);
      BracketsAround(t, n, []);
    } else {
      ItemsAreText(t[1..]);
      assert t[1..][..n - 2] == t[1..n - 1];
      BracketsAround(t, n, p.value.items);
    }
  }

  lemma ItemsParse(text: string)
    requires ParseItems(text, true).Ok?
    ensures ParseValue(text, true).Ok?
    ensures var first, p := ParseValue(text, true).value, ParseItems(text, true).value;
      var t := SkipSpace(first.rest);
      && t != "" && t[0] in ",]"
      && (t[0] == ']' ==> p == Parsed([first.value], t[1..]))
      && (t[0] == ',' ==>
            && ParseItems(t[1..], true).Ok?
            && p == Parsed([first.value] + ParseItems(t[1..], true).value.value, ParseItems(t[1..], true).value.rest))
  {
    hide ParseValue, SkipSpace;
  }

  lemma {:induction false} ItemsAreText(text: string)
    requires ParseItems(text, true).Ok?
    ensures var p := ParseItems(text, true).value; var n := |text| - |p.rest|;
      p.value != [] && n > 0 && Leaves(text, n, p.rest) && text[n - 1] == ']' && ItemsText(text[..n - 1], p.value)
    decreases |text|, 3
  {
    hide ParseItems, ParseValue, SpacedValue, SkipSpace, PaddedValue, ItemsText;
    ItemsParse(text);
    ValueIsText(text);
    var first := ParseValue(text, true).value;
    var t := SkipSpace(first.rest);
    var k := PaddedUpTo(text, first);
    if t[0] == ',' {
      ItemsAreText(t[1..]);
      NextItems(text, k, t[1..], ParseItems(t[1..], true).value, first.value);
    } else {
      OneItem(text, k, first.value);
    }
  }

  /** A value that was read, with the spaces behind it. */
  lemma PaddedUpTo(text: string, first: Parsed<Value>) returns (k: nat)
    requires |first.rest| <= |text| && Leaves(text, |text| - |first.rest|, first.rest)
    requires SpacedValue(text[..|text| - |first.rest|], first.value)
    ensures var t := SkipSpace(first.rest); k == |text| - |t| && Leaves(text, k, t)
    ensures PaddedValue(text[..k], first.value)
  {
    SkipIs(first.rest);
    hide SpacedValue, Spaces, SkipSpace;
    var n := |text| - |first.rest|;
    k := |text| - |SkipSpace(first.rest)|;
    assert text[..k][..n] == text[..n] && text[..k][n..] == first.rest[..k - n];
  }

  lemma OneItem(text: string, k: nat, v: Value)
    requires k < |text| && PaddedValue(text[..k], v)
    ensures ItemsText(text[..k], [v])
  {
    hide PaddedValue;
  }

  lemma NextItems(text: string, k: nat, more: string, p: Parsed<seq<Value>>, v: Value)
    requires k < |text| && text[k] == ',' && more == text[k + 1..] && PaddedValue(text[..k], v)
    requires |p.rest| < |more| && Leaves(more, |more| - |p.rest|, p.rest) && more[|more| - |p.rest| - 1] == ']'
    requires ItemsText(more[..|more| - |p.rest| - 1], p.value)
    ensures var n := |text| - |p.rest|;
      n > 0 && Leaves(text, n, p.rest) && text[n - 1] == ']' && ItemsText(text[..n - 1], [v] + p.value)
  {
    hide PaddedValue;
    var n := |text| - |p.rest|;
    var t := text[..n - 1];
    assert t[..k] == text[..k] && t[k + 1..] == more[..n - k - 2] && ([v] + p.value)[1..] == p.value;
  }

  lemma ObjectParse(t: string)
    requires t != "" && t[0] == '{' && SkipSpace(t) == t && ParseValue(t, true).Ok?
    ensures var s, p := SkipSpace(t[1..]), ParseValue(t, true).value;
      if s != "" && s[0] == '}' then p == Parsed(Object(map[]), s[1..])
      else
        ParseMembers(t[1..], map[], true).Ok? &&
          p == Parsed(Object(ParseMembers(t[1..], map[], true).value.value),
            ParseMembers(t[1..], map[], true).value.rest)
  {
    hide ParseItems, ParseMembers, ParseBody, ParseNumber, ParseWord, SkipSpace;
  }

  lemma BracesAround(t: string, n: nat, members: map<string, Value>, pairs: Pairs)
    requires 2 <= n <= |t| && t[0] == '{' && t[n - 1] == '}'
    requires if members == map[] then Spaces(t[1..n - 1])
             else IsObjectOf(members, pairs) && MembersText(t[1..n - 1], pairs)
    ensures ValueText(t[..n], Object(members))
  {
    hide MembersText, Spaces, IsObjectOf;
    assert t[..n][1..n - 1] == t[1..n - 1];
  }

  lemma ObjectIsText(t: string)
    requires t != "" && t[0] == '{' && SkipSpace(t) == t && ParseValue(t, true).Ok?
    ensures var p := ParseValue(t, true).value; var n := |t| - |p.rest|;
              Leaves(t, n, p.rest) && ValueText(t[..n], p.value)
    decreases |t|, 1
  {
    hide ParseValue, ParseMembers, SkipSpace, Spaces, MembersText, ValueText, IsObjectOf, Adds;
    ObjectParse(t);
    var s, p := SkipSpace(t[1..]), ParseValue(t, true).value;
    var n := |t| - |p.rest|;
    if s != "" && s[0] == '}' {
      NothingInside(t);
      BracesAround(t, n, map[], []);
    } else {
      var pairs := MembersAreText(t[1..], map[]);
      AllMembers(p.value.members, pairs);
      assert t[1..][..n - 2] == t[1..n - 1];
      BracesAround(t, n, p.value.members, pairs);
    }
  }

  /** The members that a parser has read on top of those seen. */
  ghost predicate Adds(seen: map<string, Value>, pairs: Pairs, members: map<string, Value>) {
    && (forall i, j | 0 <= i < j < |pairs| :: pairs[i].0 != pairs[j].0)
    && (forall i | 0 <= i < |pairs| ::
      pairs[i].0 !in seen && pairs[i].0 in members && members[pairs[i].0] == pairs[i].1)
    && (forall name | name in members && name !in seen :: exists i | 0 <= i < |pairs| :: pairs[i].0 == name)
    && (forall name | name in seen :: name in members && members[name] == seen[name])
  }

  lemma AllMembers(members: map<string, Value>, pairs: Pairs)
    requires Adds(map[], pairs, members) && pairs != []
    ensures IsObjectOf(members, pairs) && members != map[]
  {
    assert pairs[0].0 in members;
  }

  lemma AddsOne(seen: map<string, Value>, pair: (string, Value), pairs: Pairs, members: map<string, Value>)
    requires pair.0 !in seen && Adds(seen[pair.0 := pair.1], pairs, members)
    ensures Adds(seen, [pair] + pairs, members)
  {
    var all := [pair] + pairs;
    forall name | name in members && name !in seen ensures exists i | 0 <= i < |all| :: all[i].0 == name {
      if name == pair.0 {
        assert all[0].0 == name;
      } else {
        var i :| 0 <= i < |pairs| && pairs[i].0 == name;
        assert all[i + 1].0 == name;
      }
    }
  }

  lemma NameParse(text: string)
    requires ParseName(text, true).Ok?
    ensures var t := SkipSpace(text); t != "" && t[0] == '"' && ParseBody(t[1..], true) == ParseName(text, true)
  {
    hide SkipSpace, ParseBody;
  }

  lemma NameIsText(text: string) returns (i: nat)
    requires ParseName(text, true).Ok?
    ensures var p := ParseName(text, true).value; var n := |text| - |p.rest|;
      Leaves(text, n, p.rest) && i <= n && Spaces(text[..i]) && StringText(text[i..n], p.value)
  {
    hide ParseName, StringText, ParseBody, SkipSpace, Spaces;
    NameParse(text);
    SkipIs(text);
    var t := SkipSpace(text);
    StringIsText(t);
    i := |text| - |t|;
    var n := |text| - |ParseName(text, true).value.rest|;
    assert text[i..n] == t[..n - i];
  }

  lemma NameWithSpaces(text: string, i: nat, n: nat, colon: nat, name: string)
    requires i <= n <= colon <= |text|
    requires Spaces(text[..i]) && StringText(text[i..n], name) && Spaces(text[n..colon])
    ensures NameText(text[..colon], name)
  {
    hide StringText, Spaces;
    var part := text[..colon];
    assert part[..i] == text[..i] && part[i..n] == text[i..n] && part[n..] == text[n..colon];
  }

  /** A name that was read, up to the colon behind it. */
  lemma NameUpTo(text: string) returns (colon: nat)
    requires ParseName(text, true).Ok?
    ensures var rest := ParseName(text, true).value.rest;
      colon == |text| - |SkipSpace(rest)| && Leaves(text, colon, SkipSpace(rest))
    ensures NameText(text[..colon], ParseName(text, true).value.value)
  {
    hide ParseName, StringText, SkipSpace, Spaces, NameText;
    var i := NameIsText(text);
    var name := ParseName(text, true).value;
    SkipIs(name.rest);
    var n := |text| - |name.rest|;
    colon := |text| - |SkipSpace(name.rest)|;
    assert name.rest[..colon - n] == text[n..colon];
    NameWithSpaces(text, i, n, colon, name.value);
  }

  /** A value that was read behind a colon, up to the spaces behind. */
  lemma ValueUpTo(u: string) returns (m: nat)
    requires ParseAfterColon(u, true).Ok? && SkipSpace(u) == u
    ensures var member := ParseAfterColon(u, true).value; var t := SkipSpace(member.rest);
      && u != "" && u[0] == ':' && m == |u| - |t| && m > 0 && Leaves(u, m, t)
      && PaddedValue(u[1..m], member.value)
    decreases |u|, 1
  {
    ValueIsText(u[1..]);
    hide ParseValue, SpacedValue, PaddedValue, SkipSpace;
    var k := PaddedUpTo(u[1..], ParseAfterColon(u, true).value);
    m := k + 1;
    assert u[1..][..k] == u[1..m];
  }

  lemma ColonIsSkipped(text: string)
    ensures ParseAfterColon(SkipSpace(text), true) == ParseAfterColon(text, true)
    ensures SkipSpace(SkipSpace(text)) == SkipSpace(text) && |SkipSpace(text)| <= |text|
  {
    SkippedStays(text);
    hide ParseValue;
  }

  /** A name and a value that were read, up to the spaces behind. */
  lemma MemberIsText(text: string) returns (k: nat)
    requires ParseName(text, true).Ok? && ParseAfterColon(ParseName(text, true).value.rest, true).Ok?
    ensures var name := ParseName(text, true).value; var member := ParseAfterColon(name.rest, true).value;
      var t := SkipSpace(member.rest);
      k == |text| - |t| && Leaves(text, k, t) && MemberText(text[..k], (name.value, member.value))
    decreases |text|, 0
  {
    hide ParseName, ParseAfterColon, PaddedValue, NameText, SkipSpace;
    var name := ParseName(text, true).value;
    var u := SkipSpace(name.rest);
    ColonIsSkipped(name.rest);
    var colon := NameUpTo(text);
    var m := ValueUpTo(u);
    k := colon + m;
    var part := text[..k];
    assert part[..colon] == text[..colon] && part[colon] == u[0] && part[colon + 1..] == u[1..m];
  }

  lemma MembersParse(text: string, seen: map<string, Value>)
    requires ParseMembers(text, seen, true).Ok?
    ensures ParseName(text, true).Ok? && ParseName(text, true).value.value !in seen
    ensures ParseAfterColon(ParseName(text, true).value.rest, true).Ok?
    ensures var name := ParseName(text, true).value; var member := ParseAfterColon(name.rest, true).value;
      var t, more := SkipSpace(member.rest), seen[name.value := member.value];
      && t != "" && t[0] in ",}"
      && (t[0] == '}' ==> ParseMembers(text, seen, true) == Ok(Parsed(more, t[1..])))
      && (t[0] == ',' ==> ParseMembers(text, seen, true) == ParseMembers(t[1..], more, true))
  {
    hide ParseName, ParseAfterColon, SkipSpace;
  }

  lemma {:induction false} MembersAreText(text: string, seen: map<string, Value>) returns (pairs: Pairs)
    requires ParseMembers(text, seen, true).Ok?
    ensures var p := ParseMembers(text, seen, true).value; var n := |text| - |p.rest|;
      && n > 0 && Leaves(text, n, p.rest) && text[n - 1] == '}'
      && MembersText(text[..n - 1], pairs) && pairs != [] && Adds(seen, pairs, p.value)
    decreases |text|, 1
  {
    hide ParseMembers, ParseName, ParseAfterColon, SkipSpace, MemberText, MembersText, Adds;
    MembersParse(text, seen);
    var name := ParseName(text, true).value;
    var member := ParseAfterColon(name.rest, true).value;
    var k := MemberIsText(text);
    var t := SkipSpace(member.rest);
    var pair := (name.value, member.value);
    var more := seen[pair.0 := pair.1];
    if t[0] == ',' {
      var rest := MembersAreText(t[1..], more);
      pairs := [pair] + rest;
      NextMembers(text, k, t[1..], ParseMembers(t[1..], more, true).value.rest, pair, rest);
      AddsOne(seen, pair, rest, ParseMembers(t[1..], more, true).value.value);
    } else {
      pairs := [pair];
      LastMember(text, k, pair);
      NothingAdded(more);
      AddsOne(seen, pair, [], more);
      assert [pair] + [] == [pair];
    }
  }

  lemma NothingAdded(seen: map<string, Value>)
    ensures Adds(seen, [], seen)
  {
  }

  lemma LastMember(text: string, k: nat, pair: (string, Value))
    requires k < |text| && MemberText(text[..k], pair)
    ensures MembersText(text[..k], [pair])
  {
    hide MemberText;
  }

  lemma NextMembers(text: string, k: nat, more: string, rest: string, pair: (string, Value), pairs: Pairs)
    requires k < |text| && text[k] == ',' && more == text[k + 1..] && MemberText(text[..k], pair)
    requires |rest| < |more| && Leaves(more, |more| - |rest|, rest) && more[|more| - |rest| - 1] == '}'
    requires MembersText(more[..|more| - |rest| - 1], pairs)
    ensures var n := |text| - |rest|;
      n > 0 && Leaves(text, n, rest) && text[n - 1] == '}' && MembersText(text[..n - 1], [pair] + pairs)
  {
    hide MemberText;
    var n := |text| - |rest|;
    var t := text[..n - 1];
    assert t[..k] == text[..k] && t[k + 1..] == more[..n - k - 2] && ([pair] + pairs)[1..] == pairs;
  }

  // ----------------------------------------------- what is in the grammar is read

  lemma {:induction false} TextIsValue(t: string, v: Value, rest: string)
    requires SpacedValue(t, v) && Ends(rest)
    ensures ParseValue(t + rest, true) == Ok(Parsed(v, rest))
    decreases |t|, 2
  {
    hide ValueText, Spaces, SkipSpace, ParseValue;
    var i :| 0 <= i <= |t| && Spaces(t[..i]) && ValueText(t[i..], v);
    var core := t[i..];
    ValueStarts(core, v);
    SkipPast(t[..i], core + rest);
    assert t + rest == t[..i] + (core + rest);
    SkippedStays(t + rest);
    CoreIsValue(core, v, rest);
  }

  lemma CoreIsValue(core: string, v: Value, rest: string)
    requires ValueText(core, v) && Ends(rest)
    ensures ParseValue(core + rest, true) == Ok(Parsed(v, rest))
    decreases |core|, 1
  {
    match v {
      case Text(s) => TextIsString(core, s, rest);
      case Array(items) => TextIsArray(core, items, rest);
      case Object(members) => TextIsObject(core, members, rest);
      case _ => ScalarTrip(v, rest, true);
    }
  }

  lemma QuoteParse(body: string)
    ensures ParseValue("\"" + body, true) == AsValue(ParseBody(body, true), s => Text(s))
  {
    var t := "\"" + body;
    assert t[1..] == body;
    StartsHere(t);
    hide ParseBody, SkipSpace;
  }

  lemma StringParts(core: string, s: string) returns (body: string)
    requires StringText(core, s)
    ensures CharsText(body, s) && forall rest :: core + rest == "\"" + (body + ("\"" + rest))
  {
    hide CharsText;
    body := core[1..|core| - 1];
    assert core == "\"" + body + "\"";
  }

  lemma TextIsString(core: string, s: string, rest: string)
    requires StringText(core, s)
    ensures ParseValue(core + rest, true) == Ok(Parsed(Text(s), rest))
  {
    hide StringText, CharsText, ParseBody, ParseValue;
    var body := StringParts(core, s);
    TextIsBody(body, s, rest);
    QuoteParse(body + ("\"" + rest));
  }

  lemma StartsHere(t: string)
    requires t != "" && t[0] !in " \t\n\r"
    ensures SkipSpace(t) == t
  {
  }

  lemma TextIsArray(core: string, items: seq<Value>, rest: string)
    requires ValueText(core, Array(items))
    ensures ParseValue(core + rest, true) == Ok(Parsed(Array(items), rest))
    decreases |core|, 0
  {
    var inner, tail := core[1..|core| - 1], "]" + rest;
    assert core + rest == "[" + (inner + tail);
    hide ParseItems, ParseValue, SkipSpace, Spaces, ItemsText;
    BracketParse(inner + tail);
    if items == [] {
      SkipPast(inner, tail);
      assert tail[1..] == rest;
    } else {
      ItemsStart(inner, items, tail);
      TextIsItems(inner, items, rest);
    }
  }

  lemma BracketParse(body: string)
    ensures var s := SkipSpace(body);
      ParseValue("[" + body, true) ==
        if s != "" && s[0] == ']' then Ok(Parsed(Array([]), s[1..]))
        else AsValue(ParseItems(body, true), items => Array(items))
  {
    var t := "[" + body;
    assert t[1..] == body;
    StartsHere(t);
    hide ParseItems, SkipSpace;
  }

  lemma BraceParse(body: string)
    ensures var s := SkipSpace(body);
      ParseValue("{" + body, true) ==
        if s != "" && s[0] == '}' then Ok(Parsed(Object(map[]), s[1..]))
        else AsValue(ParseMembers(body, map[], true), members => Object(members))
  {
    var t := "{" + body;
    assert t[1..] == body;
    StartsHere(t);
    hide ParseItems, ParseMembers, SkipSpace;
  }

  lemma SpacedStarts(t: string, v: Value, tail: string)
    requires SpacedValue(t, v)
    ensures SkipSpace(t + tail) != "" && SkipSpace(t + tail)[0] !in "]}"
  {
    hide ValueText, Spaces, SkipSpace;
    var i :| 0 <= i <= |t| && Spaces(t[..i]) && ValueText(t[i..], v);
    ValueStarts(t[i..], v);
    SkipPast(t[..i], t[i..] + tail);
    assert t + tail == t[..i] + (t[i..] + tail);
  }

  /** What stands in front of the first value of a list. */
  lemma PaddedStarts(t: string, v: Value, tail: string)
    requires PaddedValue(t, v)
    ensures SkipSpace(t + tail) != "" && SkipSpace(t + tail)[0] !in "]}"
  {
    hide SpacedValue, Spaces, SkipSpace;
    var k :| 0 <= k <= |t| && SpacedValue(t[..k], v) && Spaces(t[k..]);
    SpacedStarts(t[..k], v, t[k..] + tail);
    assert t + tail == t[..k] + (t[k..] + tail);
  }

  lemma ItemsStart(t: string, items: seq<Value>, tail: string)
    requires ItemsText(t, items)
    ensures SkipSpace(t + tail) != "" && SkipSpace(t + tail)[0] !in "]}"
  {
    hide PaddedValue, SkipSpace;
    if |items| == 1 {
      PaddedStarts(t, items[0], tail);
    } else {
      var k :| 0 <= k < |t| && t[k] == ',' && PaddedValue(t[..k], items[0]) && ItemsText(t[k + 1..], items[1..]);
      PaddedStarts(t[..k], items[0], t[k..] + tail);
      assert t + tail == t[..k] + (t[k..] + tail);
    }
  }

  lemma PaddedIsValue(t: string, v: Value, tail: string)
    requires PaddedValue(t, v) && tail != "" && tail[0] in ",]}"
    ensures ParseValue(t + tail, true).Ok? && ParseValue(t + tail, true).value.value == v
    ensures SkipSpace(ParseValue(t + tail, true).value.rest) == tail
    decreases |t|, 3
  {
    hide SpacedValue, SkipSpace, ParseValue, Spaces;
    var k :| 0 <= k <= |t| && SpacedValue(t[..k], v) && Spaces(t[k..]);
    SpacesEnd(t[k..], tail);
    TextIsValue(t[..k], v, t[k..] + tail);
    assert t + tail == t[..k] + (t[k..] + tail);
    SkipPast(t[k..], tail);
  }

  lemma SpacesEnd(a: string, tail: string)
    requires Spaces(a) && tail != "" && tail[0] in ",]}"
    ensures Ends(a + tail)
  {
    assert (a + tail)[0] == if a == "" then tail[0] else a[0];
  }

  lemma ItemsFrom(text: string, first: Parsed<Value>)
    requires ParseValue(text, true) == Ok(first) && SkipSpace(first.rest) != "" && SkipSpace(first.rest)[0] in ",]"
    ensures var t := SkipSpace(first.rest);
      ParseItems(text, true) ==
        if t[0] == ']' then Ok(Parsed([first.value], t[1..])) else Prepended([first.value], ParseItems(t[1..], true))
  {
    hide ParseValue, SkipSpace;
  }

  lemma {:induction false} TextIsItems(t: string, items: seq<Value>, rest: string)
    requires ItemsText(t, items)
    ensures ParseItems(t + ("]" + rest), true) == Ok(Parsed(items, rest))
    decreases |t|, 4
  {
    hide PaddedValue, ParseItems, ParseValue, SkipSpace;
    var tail := "]" + rest;
    if |items| == 1 {
      PaddedIsValue(t, items[0], tail);
      ItemsFrom(t + tail, ParseValue(t + tail, true).value);
      assert tail[1..] == rest && items == [items[0]];
    } else {
      var k :| 0 <= k < |t| && t[k] == ',' && PaddedValue(t[..k], items[0]) && ItemsText(t[k + 1..], items[1..]);
      hide ItemsText;
      var behind := t[k..] + tail;
      PaddedIsValue(t[..k], items[0], behind);
      assert t + tail == t[..k] + behind;
      ItemsFrom(t + tail, ParseValue(t + tail, true).value);
      TextIsItems(t[k + 1..], items[1..], rest);
      assert behind[1..] == t[k + 1..] + tail && items == [items[0]] + items[1..];
    }
  }

  // --------------------------------------------------------------------- objects

  lemma NameFrom(text: string)
    requires SkipSpace(text) != "" && SkipSpace(text)[0] == '"'
    ensures ParseName(text, true) == ParseBody(SkipSpace(text)[1..], true)
  {
    hide SkipSpace, ParseBody;
  }

  lemma NameIsRead(t: string, name: string, tail: string)
    requires NameText(t, name) && tail != "" && tail[0] == ':'
    ensures ParseName(t + tail, true).Ok? && ParseName(t + tail, true).value.value == name
    ensures SkipSpace(ParseName(t + tail, true).value.rest) == tail
    ensures SkipSpace(t + tail) != "" && SkipSpace(t + tail)[0] == '"'
  {
    hide Spaces, StringText, CharsText, SkipSpace, ParseBody, ParseName;
    var i, j :| 0 <= i <= j <= |t| && Spaces(t[..i]) && StringText(t[i..j], name) && Spaces(t[j..]);
    var core, behind := t[i..j], t[j..] + tail;
    var body := StringParts(core, name);
    assert t + tail == t[..i] + (core + behind);
    SkipPast(t[..i], core + behind);
    NameFrom(t + tail);
    TextIsBody(body, name, behind);
    SkipPast(t[j..], tail);
  }

  lemma MemberIsRead(t: string, pair: (string, Value), tail: string)
    requires MemberText(t, pair) && tail != "" && tail[0] in ",}"
    ensures var name := ParseName(t + tail, true);
      && name.Ok? && name.value.value == pair.0
      && var member := ParseAfterColon(name.value.rest, true);
      && member.Ok? && member.value.value == pair.1 && SkipSpace(member.value.rest) == tail
    ensures SkipSpace(t + tail) != "" && SkipSpace(t + tail)[0] == '"'
    decreases |t|, 4
  {
    hide NameText, PaddedValue, SkipSpace, ParseName, ParseValue;
    var k :| 0 <= k < |t| && t[k] == ':' && NameText(t[..k], pair.0) && PaddedValue(t[k + 1..], pair.1);
    var behind := t[k..] + tail;
    assert t + tail == t[..k] + behind;
    NameIsRead(t[..k], pair.0, behind);
    assert behind[1..] == t[k + 1..] + tail;
    PaddedIsValue(t[k + 1..], pair.1, tail);
  }

  lemma MembersFrom(text: string, seen: map<string, Value>)
    requires ParseName(text, true).Ok? && ParseName(text, true).value.value !in seen
    requires ParseAfterColon(ParseName(text, true).value.rest, true).Ok?
    requires var t := SkipSpace(ParseAfterColon(ParseName(text, true).value.rest, true).value.rest);
      t != "" && t[0] in ",}"
    ensures var name := ParseName(text, true).value; var member := ParseAfterColon(name.rest, true).value;
      var t, more := SkipSpace(member.rest), seen[name.value := member.value];
      ParseMembers(text, seen, true) ==
        if t[0] == '}' then Ok(Parsed(more, t[1..])) else ParseMembers(t[1..], more, true)
  {
    hide ParseName, ParseAfterColon, SkipSpace;
  }

  ghost predicate FreshPairs(seen: map<string, Value>, pairs: Pairs) {
    && (forall i, j | 0 <= i < j < |pairs| :: pairs[i].0 != pairs[j].0)
    && (forall i | 0 <= i < |pairs| :: pairs[i].0 !in seen)
  }

  lemma FreshBehind(seen: map<string, Value>, pairs: Pairs)
    requires FreshPairs(seen, pairs) && pairs != []
    ensures pairs[0].0 !in seen && FreshPairs(seen[pairs[0].0 := pairs[0].1], pairs[1..])
    ensures pairs == [pairs[0]] + pairs[1..]
  {
  }

  lemma {:induction false} TextIsMembers(t: string, pairs: Pairs, seen: map<string, Value>, rest: string)
    requires MembersText(t, pairs) && FreshPairs(seen, pairs)
    ensures var r := ParseMembers(t + ("}" + rest), seen, true);
      r.Ok? && r.value.rest == rest && Adds(seen, pairs, r.value.value)
    ensures var s := SkipSpace(t + ("}" + rest)); s != "" && s[0] == '"'
    decreases |t|, 5
  {
    hide MemberText, ParseMembers, ParseName, ParseAfterColon, SkipSpace, FreshPairs, Adds;
    var tail, more := "}" + rest, seen[pairs[0].0 := pairs[0].1];
    FreshBehind(seen, pairs);
    NothingAdded(more);
    if |pairs| == 1 {
      MemberIsRead(t, pairs[0], tail);
      MembersFrom(t + tail, seen);
      assert tail[1..] == rest && pairs[1..] == [];
      AddsOne(seen, pairs[0], [], more);
    } else {
      var k :| 0 <= k < |t| && t[k] == ',' && MemberText(t[..k], pairs[0]) && MembersText(t[k + 1..], pairs[1..]);
      hide MembersText;
      var behind := t[k..] + tail;
      assert t + tail == t[..k] + behind;
      MemberIsRead(t[..k], pairs[0], behind);
      MembersFrom(t + tail, seen);
      TextIsMembers(t[k + 1..], pairs[1..], more, rest);
      assert behind[1..] == t[k + 1..] + tail;
      AddsOne(seen, pairs[0], pairs[1..], ParseMembers(t[k + 1..] + tail, more, true).value.value);
    }
  }

  lemma SameMembers(a: map<string, Value>, b: map<string, Value>, pairs: Pairs)
    requires IsObjectOf(a, pairs) && Adds(map[], pairs, b)
    ensures a == b && FreshPairs(map[], pairs)
  {
    assert forall name :: name in a <==> name in b;
  }

  lemma PairsAreFresh(members: map<string, Value>, pairs: Pairs)
    requires IsObjectOf(members, pairs)
    ensures FreshPairs(map[], pairs)
  {
  }

  lemma TextIsObject(core: string, members: map<string, Value>, rest: string)
    requires ValueText(core, Object(members))
    ensures ParseValue(core + rest, true) == Ok(Parsed(Object(members), rest))
    decreases |core|, 0
  {
    var inner, tail := core[1..|core| - 1], "}" + rest;
    assert core + rest == "{" + (inner + tail);
    hide ParseMembers, ParseValue, SkipSpace, Spaces, MembersText, IsObjectOf, FreshPairs, Adds;
    BraceParse(inner + tail);
    if members == map[] {
      SkipPast(inner, tail);
      assert tail[1..] == rest;
    } else {
      var pairs: Pairs :| IsObjectOf(members, pairs) && MembersText(inner, pairs);
      PairsAreFresh(members, pairs);
      TextIsMembers(inner, pairs, map[], rest);
      SameMembers(members, ParseMembers(inner + tail, map[], true).value.value, pairs);
    }
  }

  // ------------------------------------------------------------- the string check

  /** What the strict reader reads does not matter to the string check. */
  lemma {:induction false} ScannedValue(text: string)
    requires ParseValue(text, true).Ok?
    ensures StringsAreValid(text) == StringsAreValid(ParseValue(text, true).value.rest)
    decreases |text|, 0
  {
    hide StringsAreValid, ParseItems, ParseMembers, ParseWord, ParseNumber;
    var t := SkipSpace(text);
    SpaceScan(text);
    if t[0] == '"' {
      ScannedBody(t);
    } else if t[0] in "[{" {
      PlainPart(t, 1);
      SpaceScan(t[1..]);
      var s := SkipSpace(t[1..]);
      if s != "" && s[0] in "]}" {
        PlainPart(s, 1);
      }
      if ParseItems(t[1..], true).Ok? {
        ScannedItems(t[1..]);
      }
      if ParseMembers(t[1..], map[], true).Ok? {
        ScannedMembers(t[1..], map[]);
      }
    } else {
      ScannedToken(t);
    }
  }

  lemma ScannedBody(t: string)
    requires t != "" && t[0] == '"' && ParseBody(t[1..], true).Ok?
    ensures StringsAreValid(t) == StringsAreValid(ParseBody(t[1..], true).value.rest)
  {
    hide ParseBody;
  }

  lemma ScannedToken(t: string)
    ensures ParseWord(t).Ok? ==> StringsAreValid(t) == StringsAreValid(ParseWord(t).value.rest)
    ensures ParseNumber(t).Ok? ==> StringsAreValid(t) == StringsAreValid(ParseNumber(t).value.rest)
  {
    hide StringsAreValid;
    if ParseWord(t).Ok? {
      PlainPart(t, |t| - |ParseWord(t).value.rest|);
    }
    if ParseNumber(t).Ok? {
      NumberIsCanonical(t);
      NumberIsPlain(ParseNumber(t).value.value.number);
      PlainScan(EncodeNumber(ParseNumber(t).value.value.number), ParseNumber(t).value.rest);
      hide ParseNumber;
    }
  }

  lemma {:induction false} ScannedItems(text: string)
    requires ParseItems(text, true).Ok?
    ensures StringsAreValid(text) == StringsAreValid(ParseItems(text, true).value.rest)
    decreases |text|, 1
  {
    hide StringsAreValid, ParseItems, ParseValue, SkipSpace;
    ItemsParse(text);
    ScannedValue(text);
    var rest := ParseValue(text, true).value.rest;
    var t := SkipSpace(rest);
    SpaceScan(rest);
    PlainPart(t, 1);
    if t[0] == ',' {
      ScannedItems(t[1..]);
    }
  }

  lemma {:induction false} ScannedMembers(text: string, seen: map<string, Value>)
    requires ParseMembers(text, seen, true).Ok?
    ensures StringsAreValid(text) == StringsAreValid(ParseMembers(text, seen, true).value.rest)
    decreases |text|, 1
  {
    hide StringsAreValid, ParseMembers, ParseName, ParseAfterColon, SkipSpace;
    MembersParse(text, seen);
    var name := ParseName(text, true).value;
    ScannedName(text);
    ScannedAfterColon(name.rest);
    var member := ParseAfterColon(name.rest, true).value;
    var t := SkipSpace(member.rest);
    SpaceScan(member.rest);
    PlainPart(t, 1);
    if t[0] == ',' {
      ScannedMembers(t[1..], seen[name.value := member.value]);
    }
  }

  lemma ScannedName(text: string)
    requires ParseName(text, true).Ok?
    ensures StringsAreValid(text) == StringsAreValid(ParseName(text, true).value.rest)
  {
    hide StringsAreValid, SkipSpace, ParseBody;
    NameParse(text);
    SpaceScan(text);
    ScannedBody(SkipSpace(text));
  }

  lemma ScannedAfterColon(text: string)
    requires ParseAfterColon(text, true).Ok?
    ensures StringsAreValid(text) == StringsAreValid(ParseAfterColon(text, true).value.rest)
    decreases |text|, 0
  {
    hide StringsAreValid, SkipSpace, ParseValue;
    SpaceScan(text);
    var t := SkipSpace(text);
    PlainPart(t, 1);
    ScannedValue(t[1..]);
  }

  // -------------------------------------------------------------------- theorem

  lemma AcceptedIsText(text: string)
    requires ParseJSON(text).Ok?
    ensures PaddedValue(text, ParseJSON(text).value)
  {
    hide StringsAreValid, ParseValue, SpacedValue, SkipSpace, Spaces;
    CheckedValue(text);
    ValueIsText(text);
    var rest := ParseValue(text, true).value.rest;
    SkipIs(rest);
    assert rest[..|rest|] == rest;
  }

  lemma TextIsAccepted(text: string, v: Value)
    requires PaddedValue(text, v)
    ensures ParseJSON(text) == Ok(v)
  {
    hide StringsAreValid, ParseValue, SpacedValue, SkipSpace, Spaces;
    var k :| 0 <= k <= |text| && SpacedValue(text[..k], v) && Spaces(text[k..]);
    var rest := text[k..];
    SpacesAlone(rest);
    assert text == text[..k] + rest;
    TextIsValue(text[..k], v, rest);
    ScannedValue(text);
    CheckedValue(text);
  }

  lemma SpacesAlone(a: string)
    requires Spaces(a)
    ensures Ends(a) && SkipSpace(a) == "" && StringsAreValid(a)
  {
    SkipPast(a, "");
    assert a + "" == a;
    SpaceScan(a);
  }

  /** JSON ingress accepts exactly the texts of a value, with spaces around it,
      and yields that value. */
  lemma AcceptsExactlyTheGrammar(text: string, v: Value)
    ensures ParseJSON(text) == Ok(v) <==> PaddedValue(text, v)
  {
    hide ParseJSON, PaddedValue;
    if ParseJSON(text) == Ok(v) {
      AcceptedIsText(text);
    }
    if PaddedValue(text, v) {
      TextIsAccepted(text, v);
    }
  }

  // ------------------------------------------------------------ names and their units

  /** Escapes for these code units, one behind the other. */
  ghost predicate UnitsText(t: string, units: seq<nat>)
    decreases |units|
  {
    if units == [] then t == "" else |t| >= 6 && UnitText(t[..6], units[0]) && UnitsText(t[6..], units[1..])
  }

  /** The code units by which names are ordered are those whose escapes a reader
      takes for the name. */
  lemma {:induction false} UnitsAreEscaped(t: string, name: string)
    requires UnitsText(t, Units(name))
    ensures CharsText(t, name)
    decreases |name|
  {
    hide UnitText;
    if name != "" {
      var c, rest, units := name[0], name[1..], Units(name);
      var n := |UnitsOf(c)|;
      assert units == UnitsOf(c) + Units(rest);
      if n == 1 {
        assert units[1..] == Units(rest);
        UnitsAreEscaped(t[6..], rest);
        assert CharText(t[..6], c);
      } else {
        assert units[1..][0] == UnitsOf(c)[1] && units[1..][1..] == Units(rest);
        assert |t[6..]| >= 6 && UnitText(t[6..][..6], units[1]) && UnitsText(t[6..][6..], Units(rest));
        assert t[6..][..6] == t[..12][6..] && t[6..][6..] == t[12..] && t[..12][..6] == t[..6];
        UnitsAreEscaped(t[12..], rest);
        assert CharText(t[..12], c);
      }
      assert name == [c] + rest;
    }
  }
}
