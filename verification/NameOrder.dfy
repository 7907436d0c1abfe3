/** The order of object names: by UTF-16 code units, section 3.2.3 of RFC 8785.
    A name is a sequence of Unicode scalar values. */
module NameOrder {

  /** The UTF-16 code units of one scalar value. */
  function UnitsOf(c: char): (units: seq<nat>)
    ensures 1 <= |units| <= 2
  {
    var scalar := c as int;
    if scalar < 0x10000 then [scalar]
    else [0xD800 + (scalar - 0x10000) / 0x400, 0xDC00 + (scalar - 0x10000) % 0x400]
  }

  function Units(name: string): seq<nat> {
    if name == "" then [] else UnitsOf(name[0]) + Units(name[1..])
  }

  /** The first unit tells how many units a scalar takes, so names with the
      same units are the same name. */
  lemma {:induction false} SameUnitsSameName(a: string, b: string)
    requires Units(a) == Units(b)
    ensures a == b
    decreases |a|
  {
    if a != "" && b != "" {
      SameFirst(a[0], Units(a[1..]), b[0], Units(b[1..]));
      SameUnitsSameName(a[1..], b[1..]);
    }
  }

  lemma SameFirst(a: char, s: seq<nat>, b: char, t: seq<nat>)
    requires UnitsOf(a) + s == UnitsOf(b) + t
    ensures a == b && s == t
  {
    var u, v := UnitsOf(a) + s, UnitsOf(b) + t;
    assert u[0] == UnitsOf(a)[0] && v[0] == UnitsOf(b)[0];
    if |UnitsOf(a)| == 2 && |UnitsOf(b)| == 2 {
      assert u[1] == UnitsOf(a)[1] && v[1] == UnitsOf(b)[1];
      var x, y := a as int - 0x10000, b as int - 0x10000;
      assert x == 0x400 * (x / 0x400) + x % 0x400 && y == 0x400 * (y / 0x400) + y % 0x400;
    }
    assert |UnitsOf(a)| == |UnitsOf(b)|;
    assert s == u[|UnitsOf(a)|..] && t == v[|UnitsOf(b)|..];
  }

  // ------------------------------------------------------------ lexicographic

  predicate Precedes(a: seq<nat>, b: seq<nat>) {
    b != [] && (a == [] || a[0] < b[0] || (a[0] == b[0] && Precedes(a[1..], b[1..])))
  }

  predicate Before(a: string, b: string) {
    Precedes(Units(a), Units(b))
  }

  /** Exactly one of: before, equal, after. */
  lemma {:induction false} Trichotomy(a: seq<nat>, b: seq<nat>)
    ensures !(Precedes(a, b) && Precedes(b, a))
    ensures a == b <==> !Precedes(a, b) && !Precedes(b, a)
    decreases |a|
  {
    if a != [] && b != [] && a[0] == b[0] {
      Trichotomy(a[1..], b[1..]);
      assert a == [a[0]] + a[1..] && b == [b[0]] + b[1..];
    }
  }

  lemma {:induction false} PrecedesThen(a: seq<nat>, b: seq<nat>, c: seq<nat>)
    requires Precedes(a, b) && Precedes(b, c)
    ensures Precedes(a, c)
    decreases |a|
  {
    if a != [] && a[0] == b[0] && b[0] == c[0] {
      PrecedesThen(a[1..], b[1..], c[1..]);
    }
  }

  lemma {:induction false} PastCommon(a: seq<nat>, b: seq<nat>, k: nat)
    requires k <= |a| && k <= |b| && a[..k] == b[..k]
    ensures Precedes(a, b) <==> Precedes(a[k..], b[k..])
    decreases k
  {
    if k == 0 {
      assert a[0..] == a && b[0..] == b;
    } else {
      assert a[0] == a[..k][0] && b[0] == b[..k][0];
      assert a[1..][..k - 1] == a[..k][1..] && b[1..][..k - 1] == b[..k][1..];
      assert a[1..][k - 1..] == a[k..] && b[1..][k - 1..] == b[k..];
      PastCommon(a[1..], b[1..], k - 1);
    }
  }

  /** Compares unit by unit, then by length: a total order that finds equal
      only equal names. */
  method CompareUTF16(left: string, right: string) returns (order: int)
    ensures order < 0 <==> Before(left, right)
    ensures order > 0 <==> Before(right, left)
    ensures order == 0 <==> left == right
  {
    var leftUnits, rightUnits := Units(left), Units(right);
    Trichotomy(leftUnits, rightUnits);
    if leftUnits == rightUnits {
      SameUnitsSameName(left, right);
    }
    for index := 0 to if |leftUnits| < |rightUnits| then |leftUnits| else |rightUnits|
      invariant leftUnits[..index] == rightUnits[..index]
    {
      PastCommon(leftUnits, rightUnits, index);
      PastCommon(rightUnits, leftUnits, index);
      if leftUnits[index] < rightUnits[index] {
        return -1;
      }
      if leftUnits[index] > rightUnits[index] {
        return 1;
      }
    }
    var shared := if |leftUnits| < |rightUnits| then |leftUnits| else |rightUnits|;
    PastCommon(leftUnits, rightUnits, shared);
    PastCommon(rightUnits, leftUnits, shared);
    return |leftUnits| - |rightUnits|;
  }

  /** Code-point order differs: a name outside the basic plane sorts before
      U+FB33, whose scalar is smaller. */
  lemma UnitsAreNotScalars()
    ensures Before("\U{1F600}", "\U{FB33}") && '\U{FB33}' < '\U{1F600}'
  {
  }

  // ------------------------------------------------------------- the byte order

  function Codes(name: string): seq<nat> {
    seq(|name|, i requires 0 <= i < |name| => name[i] as int)
  }

  /** The order of UTF-8 bytes, which is that of the scalar values. */
  predicate BytesBefore(a: string, b: string) {
    Precedes(Codes(a), Codes(b))
  }

  /** At the first difference the smaller one stands, or the shorter one ends. */
  ghost predicate DifferAt(a: seq<nat>, b: seq<nat>, k: nat) {
    && k <= |a| && k < |b| && (forall i | 0 <= i < k :: a[i] == b[i])
    && (k == |a| || a[k] < b[k])
  }

  lemma {:induction false} PrecedesIff(a: seq<nat>, b: seq<nat>)
    ensures Precedes(a, b) <==> exists k: nat :: DifferAt(a, b, k)
    decreases |a|
  {
    if a == [] || b == [] || a[0] != b[0] {
      assert b != [] && (a == [] || a[0] < b[0]) ==> DifferAt(a, b, 0);
    } else {
      PrecedesIff(a[1..], b[1..]);
      if Precedes(a, b) {
        var k: nat :| DifferAt(a[1..], b[1..], k);
        assert forall i | 0 < i < k + 1 :: a[i] == a[1..][i - 1] && b[i] == b[1..][i - 1];
        assert DifferAt(a, b, k + 1);
      }
      if exists k: nat :: DifferAt(a, b, k) {
        var k: nat :| DifferAt(a, b, k);
        assert k > 0;
        assert DifferAt(a[1..], b[1..], k - 1);
      }
    }
  }

  /** The byte order of names, character by character. */
  lemma BytesBeforeIff(a: string, b: string)
    ensures BytesBefore(a, b) <==> exists k: nat :: CharsDifferAt(a, b, k)
  {
    PrecedesIff(Codes(a), Codes(b));
    hide Precedes;
    forall k: nat ensures DifferAt(Codes(a), Codes(b), k) <==> CharsDifferAt(a, b, k) {
      SameDifference(a, b, k);
    }
  }

  ghost predicate CharsDifferAt(a: string, b: string, k: nat) {
    && k <= |a| && k < |b| && (forall i | 0 <= i < k :: a[i] == b[i])
    && (k == |a| || a[k] < b[k])
  }

  lemma SameDifference(a: string, b: string, k: nat)
    ensures DifferAt(Codes(a), Codes(b), k) <==> CharsDifferAt(a, b, k)
  {
    assert |Codes(a)| == |a| && |Codes(b)| == |b|;
    assert forall i | 0 <= i < |a| :: Codes(a)[i] == a[i] as int;
    assert forall i | 0 <= i < |b| :: Codes(b)[i] == b[i] as int;
  }

  lemma SameCodesSameName(a: string, b: string)
    requires Codes(a) == Codes(b)
    ensures a == b
  {
    assert forall i | 0 <= i < |a| :: Codes(a)[i] == a[i] as int && Codes(b)[i] == b[i] as int;
    assert |Codes(a)| == |a| && |Codes(b)| == |b|;
  }

  lemma BytesTrichotomy(a: string, b: string)
    ensures !(BytesBefore(a, b) && BytesBefore(b, a))
    ensures a == b <==> !BytesBefore(a, b) && !BytesBefore(b, a)
  {
    Trichotomy(Codes(a), Codes(b));
    if Codes(a) == Codes(b) {
      SameCodesSameName(a, b);
    }
  }

  lemma BytesBeforeThen(a: string, b: string, c: string)
    requires BytesBefore(a, b) && BytesBefore(b, c)
    ensures BytesBefore(a, c)
  {
    PrecedesThen(Codes(a), Codes(b), Codes(c));
  }

  // ------------------------------------------------------------- sorted names

  ghost predicate IsSorted(names: seq<string>) {
    forall i, j | 0 <= i < j < |names| :: Before(names[i], names[j])
  }

  ghost predicate Lists(names: seq<string>, keys: set<string>) {
    forall name :: name in names <==> name in keys
  }

  lemma NotBeforeSelf(a: string)
    ensures !Before(a, a)
  {
    Trichotomy(Units(a), Units(a));
  }

  /** A set of names has one sorted list, so the order in which a map yields
      its names cannot show. */
  lemma {:induction false} SortedIsUnique(a: seq<string>, b: seq<string>, keys: set<string>)
    requires IsSorted(a) && IsSorted(b) && Lists(a, keys) && Lists(b, keys)
    ensures a == b
    decreases |a|
  {
    NothingListed(a, keys);
    NothingListed(b, keys);
    if a != [] {
      SameFirstName(a, b, keys);
      TailLists(a, keys);
      TailLists(b, keys);
      SortedIsUnique(a[1..], b[1..], keys - {a[0]});
      assert a == [a[0]] + a[1..] && b == [b[0]] + b[1..];
    }
  }

  lemma NothingListed(names: seq<string>, keys: set<string>)
    requires Lists(names, keys)
    ensures names == [] <==> keys == {}
  {
    if names != [] {
      assert names[0] in names;
    } else {
      assert forall name :: name !in keys;
    }
  }

  lemma SameFirstName(a: seq<string>, b: seq<string>, keys: set<string>)
    requires IsSorted(a) && IsSorted(b) && Lists(a, keys) && Lists(b, keys) && a != [] && b != []
    ensures a[0] == b[0]
  {
    assert a[0] in a && b[0] in b;
    assert a[0] in b && b[0] in a;
    var i :| 0 <= i < |a| && a[i] == b[0];
    var j :| 0 <= j < |b| && b[j] == a[0];
    Trichotomy(Units(a[0]), Units(b[0]));
  }

  lemma TailLists(names: seq<string>, keys: set<string>)
    requires IsSorted(names) && Lists(names, keys) && names != []
    ensures IsSorted(names[1..]) && Lists(names[1..], keys - {names[0]})
  {
    NotBeforeSelf(names[0]);
    forall name ensures name in names[1..] <==> name in keys - {names[0]} {
      if name in names[1..] {
        var i :| 0 <= i < |names[1..]| && names[1..][i] == name;
        assert names[i + 1] == name && Before(names[0], names[i + 1]);
      }
      if name in keys - {names[0]} {
        var i :| 0 <= i < |names| && names[i] == name;
        assert names[1..][i - 1] == name;
      }
    }
  }

  ghost function Inserted(names: seq<string>, name: string): seq<string> {
    if names == [] || Before(name, names[0]) then [name] + names
    else [names[0]] + Inserted(names[1..], name)
  }

  lemma {:induction false} InsertedIsSorted(names: seq<string>, name: string)
    requires IsSorted(names) && name !in names
    ensures IsSorted(Inserted(names, name))
    ensures forall n :: n in Inserted(names, name) <==> n in names || n == name
    decreases |names|
  {
    if names == [] {
    } else if Before(name, names[0]) {
      forall j | 0 <= j < |names| ensures Before(name, names[j]) {
        if j > 0 {
          PrecedesThen(Units(name), Units(names[0]), Units(names[j]));
        }
      }
    } else {
      var rest := names[1..];
      InsertedIsSorted(rest, name);
      AfterFirst(names[0], name);
      var out := Inserted(rest, name);
      forall j | 0 <= j < |out| ensures Before(names[0], out[j]) {
        assert out[j] in out;
      }
      assert names == [names[0]] + rest;
    }
  }

  lemma AfterFirst(first: string, name: string)
    requires !Before(name, first) && name != first
    ensures Before(first, name)
  {
    Trichotomy(Units(first), Units(name));
    if Units(first) == Units(name) {
      SameUnitsSameName(first, name);
    }
  }

  /** The names of an object in the order in which they are printed. */
  ghost function SortedNames(keys: set<string>): (names: seq<string>)
    ensures IsSorted(names) && Lists(names, keys)
    decreases |keys|
  {
    if keys == {} then []
    else
      var name :| name in keys;
      var rest := SortedNames(keys - {name});
      InsertedIsSorted(rest, name);
      Inserted(rest, name)
  }

  /** Sorts names, given in any order. */
  method SortNames(names: seq<string>) returns (sorted: seq<string>)
    requires forall i, j | 0 <= i < j < |names| :: names[i] != names[j]
    ensures forall keys | Lists(names, keys) :: sorted == SortedNames(keys)
  {
    sorted := [];
    for k := 0 to |names|
      invariant IsSorted(sorted) && forall name :: name in sorted <==> name in names[..k]
    {
      InsertedIsSorted(sorted, names[k]);
      sorted := InsertName(sorted, names[k]);
      assert names[..k + 1] == names[..k] + [names[k]];
    }
    assert names[..|names|] == names;
    forall keys | Lists(names, keys) ensures sorted == SortedNames(keys) {
      SortedIsUnique(sorted, SortedNames(keys), keys);
    }
  }

  method InsertName(names: seq<string>, name: string) returns (longer: seq<string>)
    ensures longer == Inserted(names, name)
  {
    hide Inserted, Before;
    var at := 0;
    assert names[..0] + Inserted(names[0..], name) == Inserted(names, name) by { assert names[0..] == names; }
    while at < |names|
      invariant at <= |names| && names[..at] + Inserted(names[at..], name) == Inserted(names, name)
    {
      var order := CompareUTF16(name, names[at]);
      if order < 0 {
        break;
      }
      InsertedLater(names, at, name);
      at := at + 1;
    }
    InsertedHere(names, at, name);
    longer := names[..at] + [name] + names[at..];
  }

  lemma InsertedLater(names: seq<string>, at: nat, name: string)
    requires at < |names| && !Before(name, names[at])
    ensures names[..at] + Inserted(names[at..], name) == names[..at + 1] + Inserted(names[at + 1..], name)
  {
    var tail := names[at..];
    assert tail[0] == names[at] && tail[1..] == names[at + 1..];
    assert Inserted(tail, name) == [names[at]] + Inserted(names[at + 1..], name);
  }

  lemma InsertedHere(names: seq<string>, at: nat, name: string)
    requires at <= |names| && (at < |names| ==> Before(name, names[at]))
    ensures names[..at] + Inserted(names[at..], name) == names[..at] + [name] + names[at..]
  {
    var tail := names[at..];
    assert tail != [] ==> tail[0] == names[at];
    assert Inserted(tail, name) == [name] + tail;
  }
}
