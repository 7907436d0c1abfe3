/** Printing and parsing undo each other. */
module JsonRoundTrip {
  import opened Results
  import opened Sequences
  import opened NameOrder
  import opened CanonicalJson
  import opened JsonParser

  // -------------------------------------------------------------------- strings

  lemma EscapedPiece(c: char, more: string, strict: bool)
    ensures var t := Escape(c) + more;
      t[0] != '"' && NextPiece(t, strict) == Some(Piece(c, |Escape(c)|)) && t[|Escape(c)|..] == more
  {
    var t := Escape(c) + more;
    if |Escape(c)| == 6 {
      var d := c as int % 16;
      assert HexValue(Hex(d)) == d && HexValue(Hex(c as int / 16)) == c as int / 16;
      assert CodeUnit(t) == Some(c as int);
    }
  }

  lemma {:induction false} BodyTrip(s: string, rest: string, strict: bool)
    ensures ParseBody(Escaped(s) + ("\"" + rest), strict) == Ok(Parsed(s, rest))
    decreases |s|
  {
    if s == "" {
      assert Escaped(s) + ("\"" + rest) == "\"" + rest;
    } else {
      var more := Escaped(s[1..]) + ("\"" + rest);
      assert Escaped(s) + ("\"" + rest) == Escape(s[0]) + more;
      EscapedPiece(s[0], more, strict);
      BodyTrip(s[1..], rest, strict);
      var t := Escape(s[0]) + more;
      assert ParseBody(t, strict) == Ok(Parsed([s[0]] + s[1..], rest));
      assert [s[0]] + s[1..] == s;
    }
  }

  // -------------------------------------------------------------------- numbers

  lemma {:induction false} DecimalTrip(n: nat)
    ensures forall c | c in Decimal(n) :: IsDigit(c)
    ensures DigitsValue(Decimal(n)) == n
    ensures Decimal(n)[0] == '0' ==> n == 0 && |Decimal(n)| == 1
    decreases n
  {
    if n >= 10 {
      DecimalTrip(n / 10);
      var digits := Decimal(n);
      assert digits[..|digits| - 1] == Decimal(n / 10) && digits[0] == Decimal(n / 10)[0];
    } else {
      assert Decimal(n)[..0] == "";
    }
  }

  lemma {:induction false} CountsAll(digits: string, rest: string)
    requires forall c | c in digits :: IsDigit(c)
    requires rest == "" || !IsDigit(rest[0])
    ensures DigitCount(digits + rest) == |digits|
    decreases |digits|
  {
    if digits == "" {
      assert digits + rest == rest;
    } else {
      assert IsDigit(digits[0]);
      CountsAll(digits[1..], rest);
      assert (digits + rest)[1..] == digits[1..] + rest;
    }
  }

  /** What can follow a value inside a canonical text. */
  predicate Ends(rest: string) {
    rest == "" || rest[0] in ",]} \t\n\r"
  }

  lemma DigitsTrip(size: nat, negative: bool, rest: string)
    requires Ends(rest) && size <= 0x1F_FFFF_FFFF_FFFF && (negative ==> size > 0)
    ensures ParseDigits(Decimal(size) + rest, negative) ==
              Ok(Parsed(Number(if negative then -(size as int) else size), rest))
  {
    var digits := Decimal(size);
    DecimalTrip(size);
    CountsAll(digits, rest);
    var t := digits + rest;
    assert t[..|digits|] == digits && t[|digits|..] == rest && t[0] == digits[0];
    hide Decimal, DigitsValue, DigitCount, IsDigit;
    assert |digits| < |t| ==> t[|digits|] == rest[0];
    assert DigitCount(t) == |digits|;
  }

  lemma NumberTrip(n: SafeInteger, rest: string)
    requires Ends(rest)
    ensures ParseNumber(EncodeNumber(n) + rest) == Ok(Parsed(Number(n), rest))
  {
    hide ParseDigits, Decimal;
    if n < 0 {
      var t := "-" + (Decimal(-n) + rest);
      assert EncodeNumber(n) + rest == t && t[1..] == Decimal(-n) + rest;
      DigitsTrip(-n, true, rest);
    } else {
      DecimalTrip(n);
      var t := Decimal(n) + rest;
      assert t[0] == Decimal(n)[0] && IsDigit(t[0]);
      DigitsTrip(n, false, rest);
    }
  }

  // --------------------------------------------------------------------- values

  /** The first character of a canonical text tells what follows. */
  lemma EncodeStarts(v: Value, rest: string)
    ensures var t := Encode(v) + rest;
      && !IsSpace(t[0]) && t[0] != ']' && t[0] != '}' && SkipSpace(t) == t
  {
    var t := Encode(v) + rest;
    assert t[0] == Encode(v)[0];
    if v.Number? {
      var size: nat := if v.number < 0 then -v.number else v.number;
      DecimalTrip(size);
      assert IsDigit(Decimal(size)[0]);
    }
  }

  lemma {:induction false} ValueTrip(v: Value, rest: string, strict: bool)
    requires Ends(rest)
    ensures ParseValue(Encode(v) + rest, strict) == Ok(Parsed(v, rest))
    decreases v, 1, 0
  {
    match v {
      case Array(items) => ArrayTrip(v, rest, strict);
      case Object(members) => ObjectTrip(v, rest, strict);
      case _ => ScalarTrip(v, rest, strict);
    }
  }

  lemma ScalarTrip(v: Value, rest: string, strict: bool)
    requires Ends(rest) && !v.Array? && !v.Object?
    ensures ParseValue(Encode(v) + rest, strict) == Ok(Parsed(v, rest))
  {
    hide Escaped, ParseBody, Decimal, DigitCount, ParseNumber;
    var t := Encode(v) + rest;
    EncodeStarts(v, rest);
    match v {
      case Text(s) =>
        assert t[0] == '"' && t[1..] == Escaped(s) + ("\"" + rest);
        BodyTrip(s, rest, strict);
      case Number(n) =>
        NumberStarts(n, rest);
        NumberTrip(n, rest);
      case _ => WordTrip(v, rest);
    }
  }

  lemma WordTrip(v: Value, rest: string)
    requires v.Null? || v.Bool?
    ensures var t := Encode(v) + rest; t[0] in "ntf" && ParseWord(t) == Ok(Parsed(v, rest))
  {
    var word := Encode(v);
    var t := word + rest;
    assert t[..|word|] == word && t[|word|..] == rest;
    assert t[0] == word[0];
  }

  lemma NumberStarts(n: SafeInteger, rest: string)
    ensures var c := (EncodeNumber(n) + rest)[0]; c == '-' || IsDigit(c)
  {
    var size: nat := if n < 0 then -n else n;
    DecimalTrip(size);
    assert IsDigit(Decimal(size)[0]);
  }

  lemma {:induction false} ArrayTrip(v: Value, rest: string, strict: bool)
    requires Ends(rest) && v.Array?
    ensures ParseValue(Encode(v) + rest, strict) == Ok(Parsed(v, rest))
    decreases v, 0, |v.items| + 1
  {
    hide ParseValue, ParseItems, Encode, EncodeItems;
    var body := EncodeItems(v, 0) + ("]" + rest);
    ArrayText(v, rest);
    if v.items == [] {
      EmptyBrackets(rest, strict);
    } else {
      ItemsTrip(v, 0, rest, strict);
      FirstItem(v, "]" + rest);
      EncodeStarts(v.items[0], EncodeItems(v, 1) + ("]" + rest));
      InBrackets(body, strict);
      assert v.items[0..] == v.items;
    }
  }

  lemma ArrayText(v: Value, rest: string)
    requires v.Array?
    ensures Encode(v) + rest == "[" + (EncodeItems(v, 0) + ("]" + rest))
    ensures v.items == [] ==> EncodeItems(v, 0) + ("]" + rest) == "]" + rest
  {
  }

  lemma FirstItem(v: Value, end: string)
    requires v.Array? && v.items != []
    ensures EncodeItems(v, 0) + end == Encode(v.items[0]) + (EncodeItems(v, 1) + end)
  {
    assert EncodeItems(v, 0) == Encode(v.items[0]) + EncodeItems(v, 1);
  }

  lemma EmptyBrackets(rest: string, strict: bool)
    ensures ParseValue("[" + ("]" + rest), strict) == Ok(Parsed(Array([]), rest))
    ensures ParseValue("{" + ("}" + rest), strict) == Ok(Parsed(Object(map[]), rest))
  {
    var t, u := "[" + ("]" + rest), "{" + ("}" + rest);
    assert t[1..] == "]" + rest && t[1..][1..] == rest && u[1..] == "}" + rest && u[1..][1..] == rest;
  }

  lemma InBrackets(body: string, strict: bool)
    requires body != "" && !IsSpace(body[0])
    ensures body[0] != ']' ==>
              ParseValue("[" + body, strict) == AsValue(ParseItems(body, strict), items => Array(items))
    ensures body[0] != '}' ==>
              ParseValue("{" + body, strict) == AsValue(ParseMembers(body, map[], strict), members => Object(members))
  {
    hide ParseItems, ParseMembers;
    assert ("[" + body)[1..] == body && ("{" + body)[1..] == body;
  }

  lemma {:induction false} ItemsTrip(v: Value, k: nat, rest: string, strict: bool)
    requires v.Array? && k < |v.items|
    ensures ParseItems(Encode(v.items[k]) + (EncodeItems(v, k + 1) + ("]" + rest)), strict) ==
              Ok(Parsed(v.items[k..], rest))
    decreases v, 0, |v.items| - k
  {
    hide ParseItems, ParseValue, SkipSpace, Encode, EncodeItems;
    var tail := EncodeItems(v, k + 1) + ("]" + rest);
    ItemsEnd(v, k + 1, rest);
    ValueTrip(v.items[k], tail, strict);
    if k + 1 == |v.items| {
      assert v.items[k..] == [v.items[k]];
    } else {
      ItemsTrip(v, k + 1, rest, strict);
      assert v.items[k..] == [v.items[k]] + v.items[k + 1..];
    }
    ItemsStep(Encode(v.items[k]) + tail, strict, Parsed(v.items[k], tail));
  }

  lemma ItemsStep(text: string, strict: bool, item: Parsed<Value>)
    requires ParseValue(text, strict) == Ok(item)
    requires item.rest != "" && SkipSpace(item.rest) == item.rest && item.rest[0] in ",]"
    ensures ParseItems(text, strict)
         == if item.rest[0] == ']' then Ok(Parsed([item.value], item.rest[1..]))
            else Prepended([item.value], ParseItems(item.rest[1..], strict))
  {
    hide ParseValue, SkipSpace;
  }

  /** After k items the text goes on with a comma and the next item, or ends. */
  lemma ItemsEnd(v: Value, k: nat, rest: string)
    requires v.Array? && 0 < k <= |v.items|
    ensures var tail := EncodeItems(v, k) + ("]" + rest);
      && tail != "" && SkipSpace(tail) == tail && Ends(tail)
      && (k == |v.items| ==> tail[0] == ']' && tail[1..] == rest)
      && (k < |v.items| ==> tail[0] == ',' && tail[1..] == Encode(v.items[k]) + (EncodeItems(v, k + 1) + ("]" + rest)))
  {
    var tail := EncodeItems(v, k) + ("]" + rest);
    if k == |v.items| {
      assert tail == "]" + rest;
    } else {
      var next := Encode(v.items[k]) + (EncodeItems(v, k + 1) + ("]" + rest));
      assert tail == "," + next;
    }
  }

  /** The members of some names. */
  ghost function Only(v: Value, names: seq<string>): map<string, Value>
    requires v.Object? && forall name | name in names :: name in v.members
  {
    map name | name in names :: v.members[name]
  }

  lemma {:induction false} ObjectTrip(v: Value, rest: string, strict: bool)
    requires Ends(rest) && v.Object?
    ensures ParseValue(Encode(v) + rest, strict) == Ok(Parsed(v, rest))
    decreases v, 0, |SortedNames(v.members.Keys)| + 1
  {
    var names := SortedNames(v.members.Keys);
    var body := EncodeMembers(v, names, 0) + ("}" + rest);
    assert Encode(v) + rest == "{" + body;
    NothingListed(names, v.members.Keys);
    if names == [] {
      assert v.members == map[];
      assert body == "}" + rest;
      EmptyBrackets(rest, strict);
    } else {
      assert Only(v, names[..0]) == map[] && Only(v, names) == v.members;
      MembersTrip(v, names, 0, rest, strict);
      FirstMember(v, names, "}" + rest);
      hide Encode, EncodeMember, EncodeMembers;
      InBrackets(body, strict);
    }
  }

  lemma MemberQuote(v: Value, name: string)
    requires v.Object? && name in v.members
    ensures EncodeMember(v, name)[0] == '"'
  {
    hide Encode, Escaped;
  }

  lemma FirstMember(v: Value, names: seq<string>, end: string)
    requires v.Object? && names != [] && forall name | name in names :: name in v.members
    ensures EncodeMembers(v, names, 0) + end == EncodeMember(v, names[0]) + (EncodeMembers(v, names, 1) + end)
    ensures (EncodeMembers(v, names, 0) + end)[0] == '"'
  {
    hide EncodeMember, EncodeMembers;
    var first, rest := EncodeMember(v, names[0]), EncodeMembers(v, names, 1);
    MemberQuote(v, names[0]);
    NextMember(v, names, 0);
    assert Comma(0) + (first + rest) == first + rest;
    Associative(first, rest, end);
  }

  lemma {:induction false} MembersTrip(v: Value, names: seq<string>, k: nat, rest: string, strict: bool)
    requires v.Object? && k < |names| && IsSorted(names) && forall name | name in names :: name in v.members
    ensures ParseMembers(EncodeMember(v, names[k]) + (EncodeMembers(v, names, k + 1) + ("}" + rest)),
                         Only(v, names[..k]), strict)
         == Ok(Parsed(Only(v, names), rest))
    decreases v, 0, |names| - k
  {
    var tail := EncodeMembers(v, names, k + 1) + ("}" + rest);
    var name, seen := names[k], Only(v, names[..k]);
    hide ParseMembers, ParseName, ParseAfterColon, SkipSpace, Encode, EncodeMember, EncodeMembers, IsSorted, Only;
    MemberParts(v, name, tail, strict);
    NotSeen(names, k);
    MembersEnd(v, names, k + 1, rest);
    ValueTrip(v.members[name], tail, strict);
    OneMore(v, names, k);
    if k + 1 == |names| {
      assert names[..k + 1] == names;
    } else {
      MembersTrip(v, names, k + 1, rest, strict);
    }
    MembersStep(EncodeMember(v, name) + tail, seen, strict,
                Parsed(name, ":" + (Encode(v.members[name]) + tail)), Parsed(v.members[name], tail));
  }

  lemma OneMore(v: Value, names: seq<string>, k: nat)
    requires v.Object? && k < |names| && forall name | name in names :: name in v.members
    ensures Only(v, names[..k])[names[k] := v.members[names[k]]] == Only(v, names[..k + 1])
    ensures names[k] !in names[..k] ==> names[k] !in Only(v, names[..k])
  {
    assert names[..k + 1] == names[..k] + [names[k]];
  }

  lemma MembersStep(text: string, seen: map<string, Value>, strict: bool, name: Parsed<string>, member: Parsed<Value>)
    requires ParseName(text, strict) == Ok(name) && name.value !in seen &&
               ParseAfterColon(name.rest, strict) == Ok(member)
    requires member.rest != "" && SkipSpace(member.rest) == member.rest && member.rest[0] in ",}"
    ensures var more := seen[name.value := member.value];
      ParseMembers(text, seen, strict)
      == if member.rest[0] == '}' then Ok(Parsed(more, member.rest[1..]))
         else ParseMembers(member.rest[1..], more, strict)
  {
    hide ParseName, ParseAfterColon, SkipSpace;
  }

  /** After k members the text goes on with a comma and the next member, or ends. */
  lemma MembersEnd(v: Value, names: seq<string>, k: nat, rest: string)
    requires v.Object? && 0 < k <= |names| && forall name | name in names :: name in v.members
    ensures var tail := EncodeMembers(v, names, k) + ("}" + rest);
      && tail != "" && SkipSpace(tail) == tail && Ends(tail)
      && (k == |names| ==> tail[0] == '}' && tail[1..] == rest)
      && (k < |names| ==>
        tail[0] == ',' && tail[1..] == EncodeMember(v, names[k]) + (EncodeMembers(v, names, k + 1) + ("}" + rest)))
  {
    var tail := EncodeMembers(v, names, k) + ("}" + rest);
    if k == |names| {
      assert tail == "}" + rest;
    } else {
      var next := EncodeMember(v, names[k]) + (EncodeMembers(v, names, k + 1) + ("}" + rest));
      assert tail == "," + next;
    }
  }

  lemma NotSeen(names: seq<string>, k: nat)
    requires k < |names| && IsSorted(names)
    ensures names[k] !in names[..k]
  {
    NotBeforeSelf(names[k]);
  }

  lemma MemberParts(v: Value, name: string, tail: string, strict: bool)
    requires v.Object? && name in v.members
    ensures var after := ":" + (Encode(v.members[name]) + tail);
      && ParseName(EncodeMember(v, name) + tail, strict) == Ok(Parsed(name, after))
      && ParseAfterColon(after, strict) == ParseValue(Encode(v.members[name]) + tail, strict)
  {
    hide Encode, Escaped, ParseBody, ParseValue;
    var text := EncodeMember(v, name) + tail;
    var after := ":" + (Encode(v.members[name]) + tail);
    assert text == "\"" + (Escaped(name) + ("\"" + after));
    assert text[1..] == Escaped(name) + ("\"" + after);
    BodyTrip(name, after, strict);
    assert after[1..] == Encode(v.members[name]) + tail;
  }
}
