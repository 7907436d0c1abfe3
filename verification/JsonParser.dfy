/** JSON ingress: the string check that runs over the whole text first, then
    the decoder. The decoder replaces broken surrogates silently, which is why
    the check comes first. */
module JsonParser {
  import opened Results
  import opened CanonicalJson

  datatype JsonError = BadString | BadSyntax | DuplicateName(name: string) | NegativeZero | NumberOutsideModel

  datatype Parsed<+T> = Parsed(value: T, rest: string)

  // --------------------------------------------------------------- code units

  predicate IsHex(c: char) {
    '0' <= c <= '9' || 'a' <= c <= 'f' || 'A' <= c <= 'F'
  }

  function HexValue(c: char): (d: nat)
    requires IsHex(c)
    ensures d < 16
  {
    if c <= '9' then c as int - '0' as int
    else if c <= 'F' then c as int - 'A' as int + 10
    else c as int - 'a' as int + 10
  }

  /** The code unit of the escape \uXXXX at the head of the text, if it is one. */
  function CodeUnit(t: string): (unit: Option<nat>)
    ensures unit.Some? ==> unit.value < 0x10000 && |t| >= 6
  {
    if |t| >= 6 && t[0] == '\\' && t[1] == 'u' && IsHex(t[2]) && IsHex(t[3]) && IsHex(t[4]) && IsHex(t[5])
    then Some(((HexValue(t[2]) * 16 + HexValue(t[3])) * 16 + HexValue(t[4])) * 16 + HexValue(t[5]))
    else None
  }

  predicate IsHigh(unit: nat) { 0xD800 <= unit < 0xDC00 }
  predicate IsLow(unit: nat) { 0xDC00 <= unit < 0xE000 }

  function Combined(high: nat, low: nat): char
    requires IsHigh(high) && IsLow(low)
  {
    (0x10000 + (high - 0xD800) * 0x400 + (low - 0xDC00)) as char
  }

  function Simple(c: char): Option<char> {
    if c in "\"\\/" then Some(c)
    else if c == 'b' then Some('\U{08}')
    else if c == 'f' then Some('\U{0C}')
    else if c == 'n' then Some('\n')
    else if c == 'r' then Some('\r')
    else if c == 't' then Some('\t')
    else None
  }

  datatype Piece = Piece(c: char, length: nat)

  /** One character of a string body. A surrogate without its partner is
      refused by the check and replaced by the decoder. */
  function NextPiece(t: string, strict: bool): (piece: Option<Piece>)
    requires t != "" && t[0] != '"'
    ensures piece.Some? ==> 0 < piece.value.length <= |t|
  {
    if t[0] as int < 0x20 then None
    else if t[0] != '\\' then Some(Piece(t[0], 1))
    else if |t| == 1 then None
    else if t[1] != 'u' then
      match Simple(t[1]) { case None => None case Some(c) => Some(Piece(c, 2)) }
    else
      match CodeUnit(t)
      case None => None
      case Some(unit) =>
        if IsHigh(unit) && CodeUnit(t[6..]).Some? && IsLow(CodeUnit(t[6..]).value) then
          Some(Piece(Combined(unit, CodeUnit(t[6..]).value), 12))
        else if IsHigh(unit) || IsLow(unit) then
          if strict then None else Some(Piece('\U{FFFD}', 6))
        else Some(Piece(unit as char, 6))
  }

  /** The rest of a string after its opening quote. */
  function ParseBody(t: string, strict: bool): (r: Result<Parsed<string>, JsonError>)
    ensures r.Ok? ==> |r.value.rest| < |t|
    decreases |t|
  {
    if t == "" then Err(BadString)
    else if t[0] == '"' then Ok(Parsed("", t[1..]))
    else
      match NextPiece(t, strict)
      case None => Err(BadString)
      case Some(piece) =>
        match ParseBody(t[piece.length..], strict)
        case Err(e) => Err(e)
        case Ok(more) => Ok(Parsed([piece.c] + more.value, more.rest))
  }

  /** Every quoted part of the text is a proper string. */
  function StringsAreValid(t: string): bool
    decreases |t|
  {
    if t == "" then true
    else if t[0] != '"' then StringsAreValid(t[1..])
    else
      match ParseBody(t[1..], true)
      case Err(_) => false
      case Ok(body) => StringsAreValid(body.rest)
  }

  /** The check goes on inside a string. */
  predicate InsideIsValid(t: string) {
    match ParseBody(t, true)
    case Err(_) => false
    case Ok(body) => StringsAreValid(body.rest)
  }

  lemma InsideStep(t: string)
    requires t != ""
    ensures t[0] == '"' ==> (InsideIsValid(t) <==> StringsAreValid(t[1..]))
    ensures t[0] != '"' ==>
              (InsideIsValid(t) <==> NextPiece(t, true).Some? && InsideIsValid(t[NextPiece(t, true).value.length..]))
  {
  }

  lemma InsideAt(input: string, index: nat)
    requires index < |input|
    ensures input[index] == '"' ==> (InsideIsValid(input[index..]) <==> StringsAreValid(input[index + 1..]))
    ensures input[index] != '"' ==>
              var piece := NextPiece(input[index..], true);
              InsideIsValid(input[index..]) <==> piece.Some? && InsideIsValid(input[index + piece.value.length..])
  {
    var t := input[index..];
    assert t[0] == input[index] && t[1..] == input[index + 1..];
    InsideStep(t);
    hide InsideIsValid, NextPiece;
    if input[index] != '"' && NextPiece(t, true).Some? {
      assert t[NextPiece(t, true).value.length..] == input[index + NextPiece(t, true).value.length..];
    }
  }

  /** Checks all quoted parts of a text in one pass over its positions. */
  method ValidateJSONStrings(input: string) returns (valid: bool)
    ensures valid == StringsAreValid(input)
  {
    var index := 0;
    while index < |input|
      invariant index <= |input| && StringsAreValid(input) == StringsAreValid(input[index..])
    {
      assert input[index..][0] == input[index] && input[index..][1..] == input[index + 1..];
      if input[index] != '"' {
        index := index + 1;
      } else {
        valid, index := ValidateBody(input, index + 1);
        if !valid {
          return false;
        }
      }
    }
    return true;
  }

  /** The length of the character or escape at a position; zero when the check
      refuses it. */
  method PieceLength(input: string, index: nat) returns (length: nat)
    requires index < |input| && input[index] != '"'
    ensures var piece := NextPiece(input[index..], true);
      length == if piece.None? then 0 else piece.value.length
  {
    var t := input[index..];
    if input[index] as int < 0x20 {
      return 0;
    }
    if input[index] != '\\' {
      return 1;
    }
    if index + 1 == |input| {
      return 0;
    }
    if input[index + 1] != 'u' {
      return if Simple(input[index + 1]) == None then 0 else 2;
    }
    var unit := CodeUnit(t);
    if unit == None {
      return 0;
    }
    if IsHigh(unit.value) {
      assert t[6..] == input[index + 6..];
      var low := CodeUnit(input[index + 6..]);
      return if low == None || !IsLow(low.value) then 0 else 12;
    }
    return if IsLow(unit.value) then 0 else 6;
  }

  method ValidateBody(input: string, start: nat) returns (valid: bool, index: nat)
    requires start <= |input|
    ensures valid ==> start < index <= |input| && InsideIsValid(input[start..]) == StringsAreValid(input[index..])
    ensures !valid ==> !InsideIsValid(input[start..])
  {
    hide InsideIsValid, NextPiece, StringsAreValid;
    index := start;
    while index < |input|
      invariant start <= index <= |input| && InsideIsValid(input[start..]) == InsideIsValid(input[index..])
    {
      InsideAt(input, index);
      if input[index] == '"' {
        return true, index + 1;
      }
      var length := PieceLength(input, index);
      if length == 0 {
        return false, index;
      }
      index := index + length;
    }
    InsideNothing();
    return false, index;
  }

  lemma InsideNothing()
    ensures !InsideIsValid("")
  {
  }

  // -------------------------------------------------------------------- numbers

  predicate IsDigit(c: char) { '0' <= c <= '9' }

  function DigitCount(t: string): (n: nat)
    ensures n <= |t|
  {
    if t == "" || !IsDigit(t[0]) then 0 else 1 + DigitCount(t[1..])
  }

  function DigitsValue(digits: string): nat
    requires forall c | c in digits :: IsDigit(c)
  {
    if digits == "" then 0
    else
      assert IsDigit(digits[|digits| - 1]);
      DigitsValue(digits[..|digits| - 1]) * 10 + (digits[|digits| - 1] as int - '0' as int)
  }

  lemma {:induction false} CountedAreDigits(t: string)
    ensures forall c | c in t[..DigitCount(t)] :: IsDigit(c)
    decreases |t|
  {
    if t != "" && IsDigit(t[0]) {
      CountedAreDigits(t[1..]);
      assert t[..DigitCount(t)] == [t[0]] + t[1..][..DigitCount(t[1..])];
    }
  }

  /** An integer literal. Fractions, exponents and integers outside the safe
      range are beyond this model. */
  function ParseNumber(t: string): (r: Result<Parsed<Value>, JsonError>)
    ensures r.Ok? ==> |r.value.rest| < |t|
  {
    if t != "" && t[0] == '-' then ParseDigits(t[1..], true) else ParseDigits(t, false)
  }

  function ParseDigits(t: string, negative: bool): (r: Result<Parsed<Value>, JsonError>)
    ensures r.Ok? ==> |r.value.rest| < |t|
  {
    var n := DigitCount(t);
    if n == 0 || (n > 1 && t[0] == '0') then Err(BadSyntax)
    else if n < |t| && t[n] in ".eE" then Err(NumberOutsideModel)
    else
      CountedAreDigits(t);
      var size := DigitsValue(t[..n]);
      if size == 0 && negative then Err(NegativeZero)
      else if size > 0x1F_FFFF_FFFF_FFFF then Err(NumberOutsideModel)
      else Ok(Parsed(Number(if negative then -(size as int) else size), t[n..]))
  }

  // --------------------------------------------------------------------- values

  predicate IsSpace(c: char) { c == ' ' || c == '\t' || c == '\n' || c == '\r' }

  function SkipSpace(t: string): (rest: string)
    ensures |rest| <= |t| && (rest != "" ==> !IsSpace(rest[0]))
  {
    if t != "" && IsSpace(t[0]) then SkipSpace(t[1..]) else t
  }

  function ParseWord(t: string): (r: Result<Parsed<Value>, JsonError>)
    ensures r.Ok? ==> |r.value.rest| < |t|
  {
    if "null" <= t then Ok(Parsed(Null, t[4..]))
    else if "true" <= t then Ok(Parsed(Bool(true), t[4..]))
    else if "false" <= t then Ok(Parsed(Bool(false), t[5..]))
    else Err(BadSyntax)
  }

  function AsValue<T>(r: Result<Parsed<T>, JsonError>, make: T -> Value): Result<Parsed<Value>, JsonError> {
    match r
    case Err(e) => Err(e)
    case Ok(p) => Ok(Parsed(make(p.value), p.rest))
  }

  function ParseValue(text: string, strict: bool): (r: Result<Parsed<Value>, JsonError>)
    ensures r.Ok? ==> |r.value.rest| < |text|
    decreases |text|, 0
  {
    var t := SkipSpace(text);
    if t == "" then Err(BadSyntax)
    else if t[0] in "ntf" then ParseWord(t)
    else if t[0] == '"' then AsValue(ParseBody(t[1..], strict), s => Text(s))
    else if t[0] == '[' then
      var s := SkipSpace(t[1..]);
      if s != "" && s[0] == ']' then Ok(Parsed(Array([]), s[1..]))
      else AsValue(ParseItems(t[1..], strict), items => Array(items))
    else if t[0] == '{' then
      var s := SkipSpace(t[1..]);
      if s != "" && s[0] == '}' then Ok(Parsed(Object(map[]), s[1..]))
      else AsValue(ParseMembers(t[1..], map[], strict), members => Object(members))
    else ParseNumber(t)
  }

  function ParseItems(text: string, strict: bool): (r: Result<Parsed<seq<Value>>, JsonError>)
    ensures r.Ok? ==> |r.value.rest| < |text|
    decreases |text|, 1
  {
    match ParseValue(text, strict)
    case Err(e) => Err(e)
    case Ok(first) =>
      var t := SkipSpace(first.rest);
      if t != "" && t[0] == ']' then Ok(Parsed([first.value], t[1..]))
      else if t != "" && t[0] == ',' then
        match ParseItems(t[1..], strict)
        case Err(e) => Err(e)
        case Ok(more) => Ok(Parsed([first.value] + more.value, more.rest))
      else Err(BadSyntax)
  }

  function ParseMembers(text: string, seen: map<string, Value>, strict: bool)
    : (r: Result<Parsed<map<string, Value>>, JsonError>)
    ensures r.Ok? ==> |r.value.rest| < |text|
    decreases |text|, 1
  {
    match ParseName(text, strict)
    case Err(e) => Err(e)
    case Ok(name) =>
      if name.value in seen then Err(DuplicateName(name.value))
      else
        match ParseAfterColon(name.rest, strict)
        case Err(e) => Err(e)
        case Ok(member) =>
          var t := SkipSpace(member.rest);
          var more := seen[name.value := member.value];
          if t != "" && t[0] == '}' then Ok(Parsed(more, t[1..]))
          else if t != "" && t[0] == ',' then ParseMembers(t[1..], more, strict)
          else Err(BadSyntax)
  }

  function ParseName(text: string, strict: bool): (r: Result<Parsed<string>, JsonError>)
    ensures r.Ok? ==> |r.value.rest| < |text|
  {
    var t := SkipSpace(text);
    if t == "" || t[0] != '"' then Err(BadSyntax) else ParseBody(t[1..], strict)
  }

  function ParseAfterColon(text: string, strict: bool): (r: Result<Parsed<Value>, JsonError>)
    ensures r.Ok? ==> |r.value.rest| < |text|
    decreases |text|, 0
  {
    var t := SkipSpace(text);
    if t == "" || t[0] != ':' then Err(BadSyntax) else ParseValue(t[1..], strict)
  }

  /** Exactly one JSON value, after the string check over the whole text. */
  function ParseJSON(text: string): (r: Result<Value, JsonError>) {
    if !StringsAreValid(text) then Err(BadString)
    else
      match ParseValue(text, false)
      case Err(e) => Err(e)
      case Ok(p) => if SkipSpace(p.rest) == "" then Ok(p.value) else Err(BadSyntax)
  }

  // ---------------------------------------------------------------- the decoder

  function Prepended(items: seq<Value>, r: Result<Parsed<seq<Value>>, JsonError>)
    : Result<Parsed<seq<Value>>, JsonError>
  {
    match r
    case Err(e) => Err(e)
    case Ok(p) => Ok(Parsed(items + p.value, p.rest))
  }

  /** Reads one value, and the values inside it, from the head of the text. */
  method DecodeJSONValue(text: string) returns (r: Result<Parsed<Value>, JsonError>)
    ensures r == ParseValue(text, false)
    decreases |text|, 0
  {
    hide ParseItems, ParseMembers, ParseBody, ParseNumber, ParseWord, SkipSpace;
    var t := SkipSpace(text);
    if t != "" && t[0] in "[{" {
      var s := SkipSpace(t[1..]);
      if t[0] == '[' {
        if s != "" && s[0] == ']' {
          return Ok(Parsed(Array([]), s[1..]));
        }
        var items := DecodeItems(t[1..]);
        return AsValue(items, xs => Array(xs));
      }
      if s != "" && s[0] == '}' {
        return Ok(Parsed(Object(map[]), s[1..]));
      }
      var members := DecodeMembers(t[1..]);
      return AsValue(members, ms => Object(ms));
    }
    return DecodeToken(t);
  }

  /** A value that is one token. */
  function DecodeToken(t: string): Result<Parsed<Value>, JsonError> {
    if t == "" then Err(BadSyntax)
    else if t[0] in "ntf" then ParseWord(t)
    else if t[0] == '"' then AsValue(ParseBody(t[1..], false), s => Text(s))
    else ParseNumber(t)
  }

  method DecodeItems(text: string) returns (r: Result<Parsed<seq<Value>>, JsonError>)
    ensures r == ParseItems(text, false)
    decreases |text|, 1
  {
    var items, rest := [], text;
    NothingPrepended(ParseItems(text, false));
    while true
      invariant |rest| <= |text| && ParseItems(text, false) == Prepended(items, ParseItems(rest, false))
      decreases |rest|
    {
      hide ParseValue, SkipSpace;
      var item := DecodeJSONValue(rest);
      if item.Err? {
        return Err(item.error);
      }
      var t := SkipSpace(item.value.rest);
      if t != "" && t[0] == ']' {
        return Ok(Parsed(items + [item.value.value], t[1..]));
      }
      if t == "" || t[0] != ',' {
        return Err(BadSyntax);
      }
      Regrouped(items, item.value.value, ParseItems(t[1..], false));
      items, rest := items + [item.value.value], t[1..];
    }
  }

  lemma NothingPrepended(r: Result<Parsed<seq<Value>>, JsonError>)
    ensures Prepended([], r) == r
  {
    if r.Ok? {
      assert [] + r.value.value == r.value.value;
    }
  }

  lemma Regrouped(items: seq<Value>, item: Value, r: Result<Parsed<seq<Value>>, JsonError>)
    ensures Prepended(items, Prepended([item], r)) == Prepended(items + [item], r)
  {
    if r.Ok? {
      assert items + ([item] + r.value.value) == items + [item] + r.value.value;
    }
  }

  /** Fills a map member by member and refuses a name that is already in it. */
  method DecodeMembers(text: string) returns (r: Result<Parsed<map<string, Value>>, JsonError>)
    ensures r == ParseMembers(text, map[], false)
    decreases |text|, 1
  {
    var members: map<string, Value>, rest := map[], text;
    while true
      invariant |rest| <= |text| && ParseMembers(text, map[], false) == ParseMembers(rest, members, false)
      decreases |rest|
    {
      hide ParseValue, SkipSpace, ParseName;
      var name := ParseName(rest, false);
      if name.Err? {
        return Err(name.error);
      }
      if name.value.value in members {
        return Err(DuplicateName(name.value.value));
      }
      var c := SkipSpace(name.value.rest);
      if c == "" || c[0] != ':' {
        return Err(BadSyntax);
      }
      var member := DecodeJSONValue(c[1..]);
      if member.Err? {
        return Err(member.error);
      }
      var t := SkipSpace(member.value.rest);
      members := members[name.value.value := member.value.value];
      if t != "" && t[0] == '}' {
        return Ok(Parsed(members, t[1..]));
      }
      if t == "" || t[0] != ',' {
        return Err(BadSyntax);
      }
      rest := t[1..];
    }
  }
}
