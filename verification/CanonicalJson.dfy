/** Canonical JSON: the printer of RFC 8785. Texts and strings are sequences of
    Unicode scalar values; numbers are the integers of the I-JSON safe range. */
module CanonicalJson {
  import opened NameOrder

  type SafeInteger = n: int | -0x1F_FFFF_FFFF_FFFF <= n <= 0x1F_FFFF_FFFF_FFFF

  datatype Value =
    | Null | Bool(truth: bool) | Number(number: SafeInteger) | Text(text: string)
    | Array(items: seq<Value>) | Object(members: map<string, Value>)

  // -------------------------------------------------------------------- numbers

  function Digit(d: nat): char
    requires d < 10
  {
    ('0' as int + d) as char
  }

  function Decimal(n: nat): (digits: string)
    ensures digits != ""
  {
    if n < 10 then [Digit(n)] else Decimal(n / 10) + [Digit(n % 10)]
  }

  function EncodeNumber(n: int): string {
    if n < 0 then "-" + Decimal(-n) else Decimal(n)
  }

  // -------------------------------------------------------------------- strings

  function Hex(d: nat): char
    requires d < 16
  {
    if d < 10 then ('0' as int + d) as char else ('a' as int + d - 10) as char
  }

  /** Section 3.2.2.2 of RFC 8785: two-character escapes where there is one,
      lower-case hexadecimal for other controls, everything else as it is. */
  function Escape(c: char): (e: string)
    ensures e != ""
  {
    if c == '"' || c == '\\' then ['\\', c]
    else if c == '\U{08}' then "\\b"
    else if c == '\t' then "\\t"
    else if c == '\n' then "\\n"
    else if c == '\U{0C}' then "\\f"
    else if c == '\r' then "\\r"
    else if c as int < 0x20 then "\\u00" + [Hex(c as int / 16), Hex(c as int % 16)]
    else [c]
  }

  function Escaped(s: string): string {
    if s == "" then "" else Escape(s[0]) + Escaped(s[1..])
  }

  function EncodeString(s: string): string {
    "\"" + Escaped(s) + "\""
  }

  // --------------------------------------------------------------------- values

  /** The canonical text of a value. */
  ghost function Encode(v: Value): (t: string)
    ensures t != ""
    decreases v
  {
    match v
    case Null => "null"
    case Bool(truth) => if truth then "true" else "false"
    case Number(n) => EncodeNumber(n)
    case Text(s) => EncodeString(s)
    case Array(items) => "[" + EncodeItems(v, 0) + "]"
    case Object(members) => "{" + EncodeMembers(v, SortedNames(members.Keys), 0) + "}"
  }

  /** The items from position k on, each but the first after a comma. */
  ghost function EncodeItems(v: Value, k: nat): string
    requires v.Array? && k <= |v.items|
    decreases v, |v.items| - k
  {
    if k == |v.items| then "" else Comma(k) + (Encode(v.items[k]) + EncodeItems(v, k + 1))
  }

  function Comma(k: nat): string {
    if k == 0 then "" else ","
  }

  ghost function EncodeMember(v: Value, name: string): (t: string)
    requires v.Object? && name in v.members
    ensures t != ""
    decreases v, 0
  {
    EncodeString(name) + ":" + Encode(v.members[name])
  }

  ghost function EncodeMembers(v: Value, names: seq<string>, k: nat): string
    requires v.Object? && k <= |names| && forall name | name in names :: name in v.members
    decreases v, |names| - k + 1
  {
    if k == |names| then "" else Comma(k) + (EncodeMember(v, names[k]) + EncodeMembers(v, names, k + 1))
  }

  // ----------------------------------------------------------------- the encoder

  method AppendString(output: string, s: string) returns (longer: string)
    ensures longer == output + EncodeString(s)
  {
    hide Escape, Escaped;
    longer := output + "\"";
    assert s[0..] == s;
    for k := 0 to |s|
      invariant longer + Escaped(s[k..]) == output + "\"" + Escaped(s)
    {
      NextEscape(s, k);
      longer := longer + Escape(s[k]);
    }
    NextEscape(s, |s|);
    assert longer + Escaped(s[|s|..]) == longer;
    assert output + EncodeString(s) == (output + "\"" + Escaped(s)) + "\"";
    longer := longer + "\"";
  }

  lemma NextEscape(s: string, k: nat)
    requires k <= |s|
    ensures Escaped(s[k..]) == if k == |s| then "" else Escape(s[k]) + Escaped(s[k + 1..])
  {
    assert k < |s| ==> s[k..][0] == s[k] && s[k..][1..] == s[k + 1..];
  }

  /** The names of an object in whatever order the map yields them. */
  method IterateNames(members: map<string, Value>) returns (names: seq<string>)
    ensures Lists(names, members.Keys)
    ensures forall i, j | 0 <= i < j < |names| :: names[i] != names[j]
  {
    names := [];
    var left := members.Keys;
    while left != {}
      invariant left <= members.Keys && Lists(names, members.Keys - left)
      invariant forall i, j | 0 <= i < j < |names| :: names[i] != names[j]
      decreases |left|
    {
      var name :| name in left;
      names := names + [name];
      left := left - {name};
    }
  }

  /** Appends the canonical text, whatever order the maps yield. */
  method AppendValue(output: string, v: Value) returns (longer: string)
    ensures longer == output + Encode(v)
    decreases v, 2
  {
    match v {
      case Null => longer := output + "null";
      case Bool(truth) => longer := output + (if truth then "true" else "false");
      case Number(n) => longer := output + EncodeNumber(n);
      case Text(s) => longer := AppendString(output, s);
      case Array(items) => longer := AppendItems(output + "[", v); longer := longer + "]";
      case Object(members) =>
        var names := IterateNames(members);
        names := SortNames(names);
        longer := AppendMembers(output + "{", v, names);
        longer := longer + "}";
    }
  }

  method AppendItems(output: string, v: Value) returns (longer: string)
    requires v.Array?
    ensures longer == output + EncodeItems(v, 0)
    decreases v, 0
  {
    hide Encode, EncodeItems;
    longer := output;
    for k := 0 to |v.items|
      invariant longer + EncodeItems(v, k) == output + EncodeItems(v, 0)
    {
      ghost var before := longer;
      if k != 0 {
        longer := longer + ",";
      }
      longer := AppendValue(longer, v.items[k]);
      NextItem(v, k);
      Regroup(before, Comma(k), Encode(v.items[k]), EncodeItems(v, k + 1));
    }
    NextItem(v, |v.items|);
  }

  method AppendMembers(output: string, v: Value, names: seq<string>) returns (longer: string)
    requires v.Object? && forall name | name in names :: name in v.members
    ensures longer == output + EncodeMembers(v, names, 0)
    decreases v, 1
  {
    hide EncodeMember, EncodeMembers;
    longer := output;
    for k := 0 to |names|
      invariant longer + EncodeMembers(v, names, k) == output + EncodeMembers(v, names, 0)
    {
      ghost var before := longer;
      if k != 0 {
        longer := longer + ",";
      }
      longer := AppendMember(longer, v, names[k]);
      NextMember(v, names, k);
      Regroup(before, Comma(k), EncodeMember(v, names[k]), EncodeMembers(v, names, k + 1));
    }
    NextMember(v, names, |names|);
  }

  method AppendMember(output: string, v: Value, name: string) returns (longer: string)
    requires v.Object? && name in v.members
    ensures longer == output + EncodeMember(v, name)
    decreases v, 0
  {
    longer := AppendString(output, name);
    longer := longer + ":";
    longer := AppendValue(longer, v.members[name]);
  }

  lemma NextItem(v: Value, k: nat)
    requires v.Array? && k <= |v.items|
    ensures EncodeItems(v, k) == if k == |v.items| then "" else Comma(k) + (Encode(v.items[k]) + EncodeItems(v, k + 1))
  {
  }

  lemma NextMember(v: Value, names: seq<string>, k: nat)
    requires v.Object? && k <= |names| && forall name | name in names :: name in v.members
    ensures EncodeMembers(v, names, k)
         == if k == |names| then "" else Comma(k) + (EncodeMember(v, names[k]) + EncodeMembers(v, names, k + 1))
  {
  }

  lemma Regroup(a: string, b: string, c: string, d: string)
    ensures ((a + b) + c) + d == a + (b + (c + d))
  {
  }
}
