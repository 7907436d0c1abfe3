/** Why the printed text is the canonical one: no text of a value is shorter,
    and of the texts of a string or number that are as short there is just this
    one with lower-case escapes. */
module Canonicity {
  import opened Results
  import opened Sequences
  import opened NameOrder
  import opened CanonicalJson
  import opened JsonParser
  import opened JsonRoundTrip
  import opened JsonIngress

  // -------------------------------------------------------------------- strings

  ghost predicate UpperHex(c: char) { 'A' <= c <= 'F' }

  /** No hexadecimal digit of an escape in this rest of a string is upper case. */
  ghost predicate LowerCase(t: string)
    decreases |t|
  {
    t != "" && t[0] != '"' && NextPiece(t, true).Some? ==>
      var n := NextPiece(t, true).value.length;
      (n > 2 ==> forall i | 2 <= i < n :: !UpperHex(t[i])) && LowerCase(t[n..])
  }

  /** No piece that is read as a character is shorter than its escape, and one
      as short with lower-case digits is that escape. */
  lemma PieceIsCanonical(t: string)
    requires t != "" && t[0] != '"' && NextPiece(t, true).Some?
    ensures var piece := NextPiece(t, true).value;
      && |Escape(piece.c)| <= piece.length
      && (|Escape(piece.c)| == piece.length && LowerCase(t) ==> t[..piece.length] == Escape(piece.c))
  {
    var piece := NextPiece(t, true).value;
    if piece.length == 6 && |Escape(piece.c)| == 6 {
      UnitDigits(t);
    }
  }

  /** The digits of a control character without an escape of its own. */
  lemma UnitDigits(t: string)
    requires |t| >= 6 && CodeUnit(t).Some? && CodeUnit(t).value < 0x20
    ensures t[2] == '0' && t[3] == '0'
    ensures HexValue(t[4]) == CodeUnit(t).value / 16 && HexValue(t[5]) == CodeUnit(t).value % 16
    ensures !UpperHex(t[4]) && !UpperHex(t[5]) ==>
              t[4] == Hex(CodeUnit(t).value / 16) && t[5] == Hex(CodeUnit(t).value % 16)
  {
  }

  lemma BodyGoesOn(t: string)
    requires ParseBody(t, true).Ok? && t[0] != '"'
    ensures NextPiece(t, true).Some?
    ensures var piece := NextPiece(t, true).value;
      var more := t[piece.length..];
      && ParseBody(more, true).Ok? && |more| < |t|
      && ParseBody(t, true).value.value == [piece.c] + ParseBody(more, true).value.value
      && ParseBody(t, true).value.rest == ParseBody(more, true).value.rest
      && (LowerCase(t) ==> LowerCase(more))
      && t == t[..piece.length] + more
  {
    hide NextPiece;
  }

  lemma EscapedFront(c: char, s: string)
    ensures Escaped([c] + s) == Escape(c) + Escaped(s)
  {
    assert ([c] + s)[1..] == s;
  }

  /** A text that is read as a string is at least as long as the printed one,
      and is the printed one if it is as short and in lower case. */
  lemma {:induction false} BodyIsCanonical(t: string)
    requires ParseBody(t, true).Ok?
    ensures var s, rest := ParseBody(t, true).value.value, ParseBody(t, true).value.rest;
      && |Escaped(s)| + 1 + |rest| <= |t|
      && (|Escaped(s)| + 1 + |rest| == |t| && LowerCase(t) ==> t == Escaped(s) + ("\"" + rest))
    decreases |t|
  {
    hide NextPiece, Escape, LowerCase, ParseBody, Escaped;
    BodyIsThere(t);
    if t[0] == '"' {
      BodyEnds(t);
    } else {
      BodyGoesOn(t);
      PieceIsCanonical(t);
      var piece := NextPiece(t, true).value;
      var more := t[piece.length..];
      BodyIsCanonical(more);
      var s, rest := ParseBody(more, true).value.value, ParseBody(more, true).value.rest;
      EscapedFront(piece.c, s);
      Associative(Escape(piece.c), Escaped(s), "\"" + rest);
    }
  }

  lemma BodyIsThere(t: string)
    requires ParseBody(t, true).Ok?
    ensures t != ""
  {
  }

  lemma BodyEnds(t: string)
    requires t != "" && t[0] == '"'
    ensures ParseBody(t, true) == Ok(Parsed("", t[1..])) && t == Escaped("") + ("\"" + t[1..])
    ensures Escaped("") == ""
  {
    assert Escaped("") + ("\"" + t[1..]) == "\"" + t[1..];
  }

  lemma EscapeIsLower(c: char)
    ensures |Escape(c)| > 2 ==> forall i | 2 <= i < |Escape(c)| :: !UpperHex(Escape(c)[i])
  {
  }

  lemma {:induction false} EscapedIsLower(s: string, rest: string)
    ensures LowerCase(Escaped(s) + ("\"" + rest))
    decreases |s|
  {
    var tail := "\"" + rest;
    if s == "" {
      assert Escaped(s) + tail == tail;
    } else {
      var more := Escaped(s[1..]) + tail;
      var t := Escape(s[0]) + more;
      assert Escaped(s) + tail == t;
      EscapedPiece(s[0], more, true);
      EscapedIsLower(s[1..], rest);
      EscapeIsLower(s[0]);
      hide Escape, NextPiece, Escaped;
      assert forall i | 0 <= i < |Escape(s[0])| :: t[i] == Escape(s[0])[i];
    }
  }

  /** The printed body of a string is, of all texts that are read back as the
      string, the one of least length without an upper-case digit. */
  lemma StringIsCanonical(s: string, rest: string, t: string)
    requires ParseBody(t, true) == Ok(Parsed(s, rest))
    ensures |Escaped(s) + ("\"" + rest)| <= |t|
    ensures t == Escaped(s) + ("\"" + rest) <==> |t| == |Escaped(s) + ("\"" + rest)| && LowerCase(t)
  {
    BodyIsCanonical(t);
    EscapedIsLower(s, rest);
  }

  // -------------------------------------------------------------------- numbers

  lemma {:induction false} DigitsAreDecimal(digits: string)
    requires digits != "" && forall c | c in digits :: IsDigit(c)
    requires |digits| > 1 ==> digits[0] != '0'
    ensures Decimal(DigitsValue(digits)) == digits
    ensures digits[0] != '0' ==> DigitsValue(digits) > 0
    decreases |digits|
  {
    var init, last := digits[..|digits| - 1], digits[|digits| - 1];
    assert digits == init + [last] && IsDigit(last);
    if init == "" {
      assert DigitsValue(init) == 0;
    } else {
      DigitsAreDecimal(init);
      assert DigitsValue(digits) / 10 == DigitsValue(init);
    }
  }

  lemma DigitsAreCanonical(t: string, negative: bool)
    requires ParseDigits(t, negative).Ok?
    ensures var p := ParseDigits(t, negative).value;
      && p.value.Number? && (negative <==> p.value.number < 0)
      && t == Decimal(if negative then -p.value.number else p.value.number) + p.rest
  {
    var n := DigitCount(t);
    CountedAreDigits(t);
    DigitsAreDecimal(t[..n]);
    hide Decimal, DigitsValue, DigitCount, IsDigit;
    assert t == t[..n] + t[n..];
  }

  /** An integer that is read has no other text than the printed one. */
  lemma NumberIsCanonical(t: string)
    requires ParseNumber(t).Ok?
    ensures ParseNumber(t).value.value.Number?
    ensures t == EncodeNumber(ParseNumber(t).value.value.number) + ParseNumber(t).value.rest
  {
    hide ParseDigits, Decimal;
    if t != "" && t[0] == '-' {
      DigitsAreCanonical(t[1..], true);
      assert t == "-" + t[1..];
    } else {
      DigitsAreCanonical(t, false);
    }
  }

  // --------------------------------------------------------------------- values

  /** The length of a value's text, and of the texts of a list of values, each
      with a comma or bracket. */
  ghost function ItemsLength(items: seq<Value>): nat {
    if items == [] then 0 else |Encode(items[0])| + 1 + ItemsLength(items[1..])
  }

  lemma {:induction false} ItemsAreLong(v: Value, k: nat)
    requires v.Array? && k <= |v.items|
    ensures |EncodeItems(v, k)| == ItemsLength(v.items[k..]) + (if k == 0 && v.items != [] then -1 else 0)
    decreases |v.items| - k
  {
    if k < |v.items| {
      ItemsAreLong(v, k + 1);
      hide Encode;
      assert v.items[k..][0] == v.items[k] && v.items[k..][1..] == v.items[k + 1..];
    }
  }

  lemma ArrayLength(items: seq<Value>)
    requires items != []
    ensures |Encode(Array(items))| == 1 + ItemsLength(items)
  {
    var v := Array(items);
    ItemsAreLong(v, 0);
    assert v.items[0..] == items;
  }

  ghost function MemberLength(members: map<string, Value>, name: string): nat
    requires name in members
  {
    |EncodeString(name)| + 1 + |Encode(members[name])| + 1
  }

  /** The length of the texts of some members, each with a comma or brace. */
  ghost function MembersLength(members: map<string, Value>, names: set<string>): nat
    requires names <= members.Keys
  {
    if names == {} then 0
    else
      var name :| name in names;
      MemberLength(members, name) + MembersLength(members, names - {name})
  }

  lemma {:induction false} TakeMember(members: map<string, Value>, names: set<string>, name: string)
    requires names <= members.Keys && name in names
    ensures MembersLength(members, names) == MemberLength(members, name) + MembersLength(members, names - {name})
    decreases |names|
  {
    hide MemberLength;
    var picked :| picked in names && MembersLength(members, names) ==
      MemberLength(members, picked) + MembersLength(members, names - {picked});
    if picked != name {
      TakeMember(members, names - {picked}, name);
      TakeMember(members, names - {name}, picked);
      assert names - {picked} - {name} == names - {name} - {picked};
    }
  }

  lemma {:induction false} MembersAreLong(v: Value, names: seq<string>, k: nat)
    requires v.Object? && k <= |names| && Distinct(names) && forall name | name in names :: name in v.members
    ensures |EncodeMembers(v, names, k)| ==
              MembersLength(v.members, SetOf(names[k..])) + (if k == 0 && names != [] then -1 else 0)
    decreases |names| - k
  {
    var left := SetOf(names[k..]);
    assert left <= v.members.Keys;
    if k < |names| {
      assert names[k..] == [names[k]] + names[k + 1..];
      assert left - {names[k]} == SetOf(names[k + 1..]);
      TakeMember(v.members, left, names[k]);
      MembersAreLong(v, names, k + 1);
      hide Encode, EncodeString;
    }
  }

  lemma ObjectLength(members: map<string, Value>)
    requires members.Keys != {}
    ensures |Encode(Object(members))| == 1 + MembersLength(members, members.Keys)
  {
    var v := Object(members);
    var names := SortedNames(members.Keys);
    forall i, j | 0 <= i < j < |names| ensures names[i] != names[j] {
      NotBeforeSelf(names[j]);
    }
    assert SetOf(names[0..]) == members.Keys;
    assert names != [];
    MembersAreLong(v, names, 0);
  }

  // ------------------------------------------------------------- the shortest text

  lemma ShortestWord(t: string)
    requires ParseWord(t).Ok?
    ensures |Encode(ParseWord(t).value.value)| + |ParseWord(t).value.rest| == |t|
  {
  }

  lemma ShortestToken(t: string)
    requires t != "" && t[0] !in "[{" && ParseValue(t, true).Ok? && SkipSpace(t) == t
    ensures |Encode(ParseValue(t, true).value.value)| + |ParseValue(t, true).value.rest| <= |t|
  {
    hide ParseBody, ParseWord, ParseNumber, Escaped;
    if t[0] in "ntf" {
      ShortestWord(t);
    } else if t[0] == '"' {
      BodyIsCanonical(t[1..]);
    } else {
      NumberIsCanonical(t);
    }
  }

  lemma ShortestName(text: string)
    requires ParseName(text, true).Ok?
    ensures |EncodeString(ParseName(text, true).value.value)| + |ParseName(text, true).value.rest| <= |text|
  {
    hide ParseBody, Escaped;
    BodyIsCanonical(SkipSpace(text)[1..]);
  }

  lemma SkippedStays(text: string)
    ensures var t := SkipSpace(text);
      SkipSpace(t) == t && |t| <= |text| && ParseValue(t, true) == ParseValue(text, true)
  {
    hide ParseItems, ParseMembers, ParseBody, ParseNumber, ParseWord;
  }

  lemma {:induction false} ShortestValue(text: string)
    requires ParseValue(text, true).Ok?
    ensures |Encode(ParseValue(text, true).value.value)| + |ParseValue(text, true).value.rest| <= |text|
    decreases |text|, 0
  {
    hide ParseItems, ParseMembers, ParseBody, ParseNumber, ParseWord, Encode;
    var t := SkipSpace(text);
    SkippedStays(text);
    if t[0] == '[' {
      EmptyLengths();
      if ParseItems(t[1..], true).Ok? {
        ShortestItems(t[1..]);
        ArrayLength(ParseItems(t[1..], true).value.value);
      }
    } else if t[0] == '{' {
      EmptyLengths();
      if ParseMembers(t[1..], map[], true).Ok? {
        var none: map<string, Value> := map[];
        ShortestMembers(t[1..], none);
        var members := ParseMembers(t[1..], none, true).value.value;
        assert none.Keys == {};
        assert members.Keys - {} == members.Keys;
        ObjectLength(members);
      }
    } else {
      ShortestToken(t);
    }
  }

  lemma EmptyLengths()
    ensures |Encode(Array([]))| == 2 && |Encode(Object(map[]))| == 2
  {
    NothingListed(SortedNames({}), {});
  }

  lemma {:induction false} ShortestItems(text: string)
    requires ParseItems(text, true).Ok?
    ensures var items := ParseItems(text, true).value;
      items.value != [] && ItemsLength(items.value) + |items.rest| <= |text|
    decreases |text|, 1
  {
    hide ParseValue, Encode, SkipSpace;
    ShortestValue(text);
    var first := ParseValue(text, true).value;
    var t := SkipSpace(first.rest);
    if t[0] == ',' {
      ShortestItems(t[1..]);
      var more := ParseItems(t[1..], true).value.value;
      assert ([first.value] + more)[1..] == more;
    } else {
      assert [first.value][1..] == [] && ItemsLength([]) == 0;
    }
  }

  /** The members read behind those seen. */
  lemma {:induction false} ShortestMembers(text: string, seen: map<string, Value>)
    requires ParseMembers(text, seen, true).Ok?
    ensures var members := ParseMembers(text, seen, true).value;
      && seen.Keys < members.value.Keys && (forall name | name in seen :: members.value[name] == seen[name])
      && MembersLength(members.value, members.value.Keys - seen.Keys) + |members.rest| <= |text|
    decreases |text|, 1
  {
    hide ParseValue, Encode, EncodeString, SkipSpace, ParseName;
    ShortestName(text);
    var name := ParseName(text, true).value;
    ShortestAfterColon(name.rest);
    hide ParseAfterColon;
    var member := ParseAfterColon(name.rest, true).value;
    var more := seen[name.value := member.value];
    var t := SkipSpace(member.rest);
    var all := ParseMembers(text, seen, true).value.value;
    if t[0] == ',' {
      ShortestMembers(t[1..], more);
    }
    assert name.value in all.Keys - seen.Keys;
    assert all.Keys - seen.Keys - {name.value} == all.Keys - more.Keys;
    TakeMember(all, all.Keys - seen.Keys, name.value);
    assert all.Keys - more.Keys == {} ==> MembersLength(all, all.Keys - more.Keys) == 0;
  }

  lemma ShortestAfterColon(text: string)
    requires ParseAfterColon(text, true).Ok?
    ensures var member := ParseAfterColon(text, true).value;
      1 + |Encode(member.value)| + |member.rest| <= |text|
    decreases |text|, 0
  {
    hide ParseValue, Encode;
    ShortestValue(SkipSpace(text)[1..]);
  }

  /** No text that is accepted as a value is shorter than the canonical one. */
  lemma CanonicalIsShortest(text: string)
    requires ParseJSON(text).Ok?
    ensures |Encode(ParseJSON(text).value)| <= |text|
  {
    hide StringsAreValid, ParseValue, Encode;
    NothingIsReplaced(text);
    ShortestValue(text);
  }
}
