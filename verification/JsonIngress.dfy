/** What the ingress of JSON guarantees: canonical texts come back as the value
    they were printed from, and no accepted text had a surrogate replaced. */
module JsonIngress {
  import opened Results
  import opened NameOrder
  import opened CanonicalJson
  import opened JsonParser
  import opened JsonRoundTrip

  // ---------------------------------------------------- the check and the text

  /** Text without quotes does not matter to the string check. */
  lemma {:induction false} PlainScan(plain: string, t: string)
    requires '"' !in plain
    ensures StringsAreValid(plain + t) == StringsAreValid(t)
    decreases |plain|
  {
    if plain == "" {
      assert plain + t == t;
    } else {
      assert (plain + t)[0] == plain[0] && (plain + t)[1..] == plain[1..] + t;
      PlainScan(plain[1..], t);
    }
  }

  lemma StringScan(s: string, t: string)
    ensures StringsAreValid(EncodeString(s) + t) == StringsAreValid(t)
  {
    var body := Escaped(s) + ("\"" + t);
    assert EncodeString(s) + t == "\"" + body;
    assert ("\"" + body)[1..] == body;
    BodyTrip(s, t, true);
  }

  lemma {:induction false} ValueScan(v: Value, t: string)
    ensures StringsAreValid(Encode(v) + t) == StringsAreValid(t)
    decreases v, 1, 0
  {
    hide StringsAreValid;
    match v {
      case Null => PlainScan("null", t);
      case Bool(truth) => PlainScan(if truth then "true" else "false", t);
      case Number(n) => NumberIsPlain(n); PlainScan(EncodeNumber(n), t);
      case Text(s) => StringScan(s, t);
      case Array(items) =>
        Around("[", EncodeItems(v, 0), "]", t);
        ItemsScan(v, 0, "]" + t);
        PlainScan("[", EncodeItems(v, 0) + ("]" + t));
        PlainScan("]", t);
      case Object(members) =>
        var names := SortedNames(members.Keys);
        Around("{", EncodeMembers(v, names, 0), "}", t);
        MembersScan(v, names, 0, "}" + t);
        PlainScan("{", EncodeMembers(v, names, 0) + ("}" + t));
        PlainScan("}", t);
    }
  }

  lemma Around(a: string, b: string, c: string, t: string)
    ensures (a + b + c) + t == a + (b + (c + t))
  {
  }

  lemma NumberIsPlain(n: SafeInteger)
    ensures '"' !in EncodeNumber(n)
  {
    DecimalTrip(if n < 0 then -n else n);
    assert !IsDigit('"');
  }

  lemma {:induction false} ItemsScan(v: Value, k: nat, t: string)
    requires v.Array? && k <= |v.items|
    ensures StringsAreValid(EncodeItems(v, k) + t) == StringsAreValid(t)
    decreases v, 0, |v.items| - k
  {
    hide StringsAreValid;
    if k == |v.items| {
      assert EncodeItems(v, k) + t == t;
    } else {
      var more := EncodeItems(v, k + 1) + t;
      Regroup("", Comma(k), Encode(v.items[k]), EncodeItems(v, k + 1));
      assert EncodeItems(v, k) + t == Comma(k) + (Encode(v.items[k]) + more);
      PlainScan(Comma(k), Encode(v.items[k]) + more);
      ValueScan(v.items[k], more);
      ItemsScan(v, k + 1, t);
    }
  }

  lemma {:induction false} MembersScan(v: Value, names: seq<string>, k: nat, t: string)
    requires v.Object? && k <= |names| && forall name | name in names :: name in v.members
    ensures StringsAreValid(EncodeMembers(v, names, k) + t) == StringsAreValid(t)
    decreases v, 0, |names| - k
  {
    hide StringsAreValid;
    if k == |names| {
      assert EncodeMembers(v, names, k) + t == t;
    } else {
      var more := EncodeMembers(v, names, k + 1) + t;
      var member := v.members[names[k]];
      assert EncodeMembers(v, names, k) + t == Comma(k) + (EncodeMember(v, names[k]) + more);
      PlainScan(Comma(k), EncodeMember(v, names[k]) + more);
      MemberScan(v, names[k], more);
      MembersScan(v, names, k + 1, t);
    }
  }

  lemma MemberScan(v: Value, name: string, t: string)
    requires v.Object? && name in v.members
    ensures StringsAreValid(EncodeMember(v, name) + t) == StringsAreValid(t)
    decreases v, 0, 0
  {
    hide StringsAreValid;
    var member := Encode(v.members[name]);
    assert EncodeMember(v, name) + t == EncodeString(name) + (":" + (member + t));
    StringScan(name, ":" + (member + t));
    PlainScan(":", member + t);
    ValueScan(v.members[name], t);
  }

  // --------------------------------------------------------------- round trips

  /** Parsing a canonical text gives back the value it was printed from. */
  lemma EncodeThenParse(v: Value)
    ensures ParseJSON(Encode(v)) == Ok(v)
  {
    var t := Encode(v);
    assert t + "" == t;
    ValueScan(v, "");
    ValueTrip(v, "", false);
  }

  /** Different values have different canonical texts. */
  lemma EncodeIsInjective(a: Value, b: Value)
    requires Encode(a) == Encode(b)
    ensures a == b
  {
    EncodeThenParse(a);
    EncodeThenParse(b);
  }

  // ------------------------------------------------------- nothing is replaced

  lemma {:induction false} SpaceScan(t: string)
    ensures StringsAreValid(SkipSpace(t)) == StringsAreValid(t)
    decreases |t|
  {
    if t != "" && IsSpace(t[0]) {
      SpaceScan(t[1..]);
    }
  }

  lemma {:induction false} StrictBodyIsLenient(t: string)
    requires ParseBody(t, true).Ok?
    ensures ParseBody(t, false) == ParseBody(t, true)
    decreases |t|
  {
    if t[0] != '"' {
      var piece := NextPiece(t, true).value;
      assert NextPiece(t, false) == Some(piece);
      StrictBodyIsLenient(t[piece.length..]);
    }
  }

  /** A checked string is decoded without replacement, and the check goes on
      behind it. */
  lemma CheckedBody(t: string)
    requires t != "" && t[0] == '"' && StringsAreValid(t)
    ensures ParseBody(t[1..], false) == ParseBody(t[1..], true)
    ensures ParseBody(t[1..], true).Ok? && StringsAreValid(ParseBody(t[1..], true).value.rest)
  {
    StrictBodyIsLenient(t[1..]);
  }

  lemma PlainPart(t: string, n: nat)
    requires n <= |t| && '"' !in t[..n]
    ensures StringsAreValid(t[n..]) == StringsAreValid(t)
  {
    assert t == t[..n] + t[n..];
    PlainScan(t[..n], t[n..]);
  }

  lemma WordOrNumberScan(t: string)
    requires StringsAreValid(t)
    ensures ParseWord(t).Ok? ==> StringsAreValid(ParseWord(t).value.rest)
    ensures ParseNumber(t).Ok? ==> StringsAreValid(ParseNumber(t).value.rest)
  {
    if ParseWord(t).Ok? {
      PlainPart(t, |t| - |ParseWord(t).value.rest|);
    }
    if ParseNumber(t).Ok? {
      var sign := if t[0] == '-' then 1 else 0;
      var n := DigitCount(t[sign..]);
      assert sign == 0 ==> t[sign..] == t;
      CountedAreDigits(t[sign..]);
      assert !IsDigit('"');
      assert t[..sign + n] == t[..sign] + t[sign..][..n];
      assert t[sign..][n..] == t[sign + n..];
      PlainPart(t, sign + n);
    }
  }

  /** After the string check the lenient decoder agrees with the strict one. */
  lemma {:induction false} CheckedValue(text: string)
    requires StringsAreValid(text)
    ensures ParseValue(text, false) == ParseValue(text, true)
    ensures ParseValue(text, false).Ok? ==> StringsAreValid(ParseValue(text, false).value.rest)
    decreases |text|, 0
  {
    hide StringsAreValid;
    var t := SkipSpace(text);
    SpaceScan(text);
    if t != "" {
      if t[0] == '"' {
        CheckedBody(t);
      } else {
        PlainPart(t, 1);
        SpaceScan(t[1..]);
        WordOrNumberScan(t);
        var s := SkipSpace(t[1..]);
        if s != "" && s[0] != '"' {
          PlainPart(s, 1);
        }
        CheckedItems(t[1..]);
        CheckedMembers(t[1..], map[]);
      }
    }
  }

  lemma {:induction false} CheckedItems(text: string)
    requires StringsAreValid(text)
    ensures ParseItems(text, false) == ParseItems(text, true)
    ensures ParseItems(text, false).Ok? ==> StringsAreValid(ParseItems(text, false).value.rest)
    decreases |text|, 1
  {
    hide StringsAreValid;
    CheckedValue(text);
    if ParseValue(text, false).Ok? {
      var rest := ParseValue(text, false).value.rest;
      var t := SkipSpace(rest);
      SpaceScan(rest);
      if t != "" && t[0] in ",]" {
        PlainPart(t, 1);
        CheckedItems(t[1..]);
      }
    }
  }

  lemma {:induction false} CheckedMembers(text: string, seen: map<string, Value>)
    requires StringsAreValid(text)
    ensures ParseMembers(text, seen, false) == ParseMembers(text, seen, true)
    ensures ParseMembers(text, seen, false).Ok? ==> StringsAreValid(ParseMembers(text, seen, false).value.rest)
    decreases |text|, 1
  {
    hide StringsAreValid;
    CheckedName(text);
    if ParseName(text, false).Ok? {
      var name := ParseName(text, false).value;
      CheckedAfterColon(name.rest);
      if name.value !in seen && ParseAfterColon(name.rest, false).Ok? {
        var member := ParseAfterColon(name.rest, false).value;
        var t := SkipSpace(member.rest);
        SpaceScan(member.rest);
        if t != "" && t[0] in ",}" {
          PlainPart(t, 1);
          CheckedMembers(t[1..], seen[name.value := member.value]);
        }
      }
    }
  }

  lemma CheckedName(text: string)
    requires StringsAreValid(text)
    ensures ParseName(text, false) == ParseName(text, true)
    ensures ParseName(text, false).Ok? ==> StringsAreValid(ParseName(text, false).value.rest)
  {
    SpaceScan(text);
    var t := SkipSpace(text);
    if t != "" && t[0] == '"' {
      CheckedBody(t);
    }
  }

  lemma CheckedAfterColon(text: string)
    requires StringsAreValid(text)
    ensures ParseAfterColon(text, false) == ParseAfterColon(text, true)
    ensures ParseAfterColon(text, false).Ok? ==> StringsAreValid(ParseAfterColon(text, false).value.rest)
    decreases |text|, 0
  {
    SpaceScan(text);
    var t := SkipSpace(text);
    if t != "" && t[0] == ':' {
      PlainPart(t, 1);
      CheckedValue(t[1..]);
    }
  }

  /** An accepted text says exactly what its value says: the strict decoder,
      which refuses every broken surrogate, reads the same value. */
  lemma NothingIsReplaced(text: string)
    requires ParseJSON(text).Ok?
    ensures ParseValue(text, true).Ok? && ParseValue(text, true).value.value == ParseJSON(text).value
  {
    CheckedValue(text);
  }
}
