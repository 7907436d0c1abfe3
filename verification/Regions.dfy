/** The review regions of a document: runs of physical lines with two hundred
    nonblank lines each, the last one with at most that many. What counts as a
    blank line is a parameter: the source trims Unicode space. */
module Regions {
  import opened Results
  import opened Sequences
  import opened Markers

  const NONBLANK_LINES_PER_REGION := 200

  /** Lines are numbered from one; a region holds its first to its last line. */
  datatype Region = Region(ordinal: nat, startLine: nat, endLine: nat, lines: seq<string>) {
    function Bytes(): string { Unlines(lines) }
  }

  datatype RegionError = NoFinalNewline | NoLines | BadUniverse

  function Lines(document: string): (lines: seq<string>)
    ensures document != "" && document[|document| - 1] == '\n' ==> lines != [] && Unlines(lines) == document
    decreases |document|
  {
    if document == "" then []
    else
      var n := LineLength(document);
      assert document == document[..n] + document[n..];
      if n == |document| then [document]
      else
        assert document[n + 1..] != "" ==> document[n + 1..][|document| - n - 2] == document[|document| - 1];
        assert document == document[..n] + "\n" + document[n + 1..];
        [document[..n]] + Lines(document[n + 1..])
  }

  /** The lines of a document, which must end with a newline. */
  function PhysicalLines(document: string): Result<seq<string>, RegionError> {
    if document == "" then Ok([])
    else if document[|document| - 1] != '\n' then Err(NoFinalNewline)
    else Ok(Lines(document))
  }

  function Nonblank(blank: string -> bool, lines: seq<string>): nat {
    if lines == [] then 0 else Nonblank(blank, lines[..|lines| - 1]) + (if blank(lines[|lines| - 1]) then 0 else 1)
  }

  // ------------------------------------------------------------------- universe

  ghost predicate RegionFits(blank: string -> bool, lines: seq<string>, regions: seq<Region>, k: nat)
    requires k < |regions|
  {
    var r := regions[k];
    && r.ordinal == k + 1
    && r.startLine == (if k == 0 then 1 else regions[k - 1].endLine + 1)
    && r.startLine <= r.endLine <= |lines|
    && r.lines == lines[r.startLine - 1..r.endLine]
    && (k + 1 < |regions| ==> Nonblank(blank, r.lines) == NONBLANK_LINES_PER_REGION)
    && (k + 1 == |regions| ==> 0 < Nonblank(blank, r.lines) <= NONBLANK_LINES_PER_REGION)
  }

  /** The regions cover the lines in order, without gap or overlap. */
  ghost predicate IsUniverse(blank: string -> bool, lines: seq<string>, regions: seq<Region>) {
    && regions != [] && regions[|regions| - 1].endLine == |lines|
    && forall k | 0 <= k < |regions| :: RegionFits(blank, lines, regions, k)
  }

  method CountNonblank(blank: string -> bool, lines: seq<string>) returns (count: nat)
    ensures count == Nonblank(blank, lines)
  {
    count := 0;
    for i := 0 to |lines|
      invariant count == Nonblank(blank, lines[..i])
    {
      assert lines[..i + 1][..i] == lines[..i];
      if !blank(lines[i]) {
        count := count + 1;
      }
    }
    assert lines[..|lines|] == lines;
  }

  method ValidateUniverse(blank: string -> bool, document: string, regions: seq<Region>) returns (valid: bool)
    ensures valid <==> PhysicalLines(document).Ok? && IsUniverse(blank, PhysicalLines(document).value, regions)
  {
    hide Nonblank, Lines;
    if PhysicalLines(document).Err? || regions == [] {
      return false;
    }
    var lines := PhysicalLines(document).value;
    var expectedStart := 1;
    for index := 0 to |regions|
      invariant forall k | 0 <= k < index :: RegionFits(blank, lines, regions, k)
      invariant expectedStart == if index == 0 then 1 else regions[index - 1].endLine + 1
    {
      var region := regions[index];
      if region.ordinal != index + 1 || region.startLine != expectedStart || region.endLine < region.startLine
         || region.endLine > |lines| || region.lines != lines[region.startLine - 1..region.endLine]
      {
        assert !RegionFits(blank, lines, regions, index);
        return false;
      }
      var nonblank := CountNonblank(blank, region.lines);
      if (index < |regions| - 1 && nonblank != NONBLANK_LINES_PER_REGION)
         || (index == |regions| - 1 && (nonblank == 0 || nonblank > NONBLANK_LINES_PER_REGION))
      {
        assert !RegionFits(blank, lines, regions, index);
        return false;
      }
      expectedStart := region.endLine + 1;
    }
    return expectedStart == |lines| + 1;
  }

  // ----------------------------------------------------------------- generation

  /** The complete regions made so far end where the next one starts. */
  ghost predicate MadeUpTo(blank: string -> bool, lines: seq<string>, regions: seq<Region>, start: nat) {
    && start <= |lines| && start == (if regions == [] then 0 else regions[|regions| - 1].endLine)
    && (forall k | 0 <= k < |regions| :: RegionMade(blank, lines, regions, k))
    && Nonblank(blank, lines[..start]) == NONBLANK_LINES_PER_REGION * |regions|
    && (start > 0 ==> !blank(lines[start - 1]))
  }

  ghost predicate RegionMade(blank: string -> bool, lines: seq<string>, regions: seq<Region>, k: nat)
    requires k < |regions|
  {
    var r := regions[k];
    && r.ordinal == k + 1
    && r.startLine == (if k == 0 then 1 else regions[k - 1].endLine + 1)
    && r.startLine <= r.endLine <= |lines|
    && r.lines == lines[r.startLine - 1..r.endLine]
    && Nonblank(blank, r.lines) == NONBLANK_LINES_PER_REGION
  }

  lemma {:induction false} NonblankSplits(blank: string -> bool, lines: seq<string>, n: nat)
    requires n <= |lines|
    ensures Nonblank(blank, lines) == Nonblank(blank, lines[..n]) + Nonblank(blank, lines[n..])
    decreases |lines|
  {
    if n < |lines| {
      var init := lines[..|lines| - 1];
      NonblankSplits(blank, init, n);
      assert init[..n] == lines[..n] && lines[n..][..|lines| - n - 1] == init[n..];
    } else {
      assert lines[..n] == lines;
    }
  }

  lemma CloseRegion(blank: string -> bool, lines: seq<string>, regions: seq<Region>, start: nat, end: nat)
    requires MadeUpTo(blank, lines, regions, start) && start < end <= |lines|
    requires Nonblank(blank, lines[start..end]) == NONBLANK_LINES_PER_REGION && !blank(lines[end - 1])
    ensures MadeUpTo(blank, lines, regions + [Region(|regions| + 1, start + 1, end, lines[start..end])], end)
  {
    var more := regions + [Region(|regions| + 1, start + 1, end, lines[start..end])];
    NonblankSplits(blank, lines[..end], start);
    assert lines[..end][..start] == lines[..start] && lines[..end][start..] == lines[start..end];
    hide Nonblank;
    forall k | 0 <= k < |more| ensures RegionMade(blank, lines, more, k) {
      if k < |regions| {
        assert RegionMade(blank, lines, regions, k);
      }
    }
  }

  /** Cuts a document into regions. It succeeds exactly when the document ends
      with a newline and its nonblank lines do not fill the regions exactly and
      leave blank lines over. */
  method GenerateRegions(blank: string -> bool, document: string) returns (result: Result<seq<Region>, RegionError>)
    ensures result.Ok? ==> PhysicalLines(document).Ok? && IsUniverse(blank, PhysicalLines(document).value, result.value)
    ensures result.Ok? <==> document != "" && document[|document| - 1] == '\n' && Fillable(blank, Lines(document))
    ensures result.Ok? ==> result.value == RegionsOf(blank, Lines(document))
  {
    if PhysicalLines(document).Err? {
      return Err(PhysicalLines(document).error);
    }
    var lines := PhysicalLines(document).value;
    if lines == [] {
      return Err(NoLines);
    }
    var regions := CutLines(blank, lines);
    hide IsUniverse, Fillable;
    var valid := ValidateUniverse(blank, document, regions);
    if !valid {
      return Err(BadUniverse);
    }
    return Ok(regions);
  }

  /** The regions that cutting goes on to make from a line on, with the lines
      from `start` on not yet in a region. */
  function Cutting(blank: string -> bool, lines: seq<string>, index: nat, start: nat, nonblank: nat,
                   made: seq<Region>): seq<Region>
    requires start <= index <= |lines|
    decreases |lines| - index
  {
    if index == |lines| then
      made + if start < |lines| then [Region(|made| + 1, start + 1, |lines|, lines[start..])] else []
    else
      var count := if blank(lines[index]) then nonblank else nonblank + 1;
      if count == NONBLANK_LINES_PER_REGION then
        var region := Region(|made| + 1, start + 1, index + 1, lines[start..index + 1]);
        Cutting(blank, lines, index + 1, index + 1, 0, made + [region])
      else Cutting(blank, lines, index + 1, start, count, made)
  }

  function RegionsOf(blank: string -> bool, lines: seq<string>): seq<Region> {
    Cutting(blank, lines, 0, 0, 0, [])
  }

  method CutLines(blank: string -> bool, lines: seq<string>) returns (regions: seq<Region>)
    requires lines != []
    ensures IsUniverse(blank, lines, regions) <==> Fillable(blank, lines)
    ensures regions == RegionsOf(blank, lines)
  {
    hide MadeUpTo, Nonblank, IsUniverse, Fillable;
    var start, nonblank := 0, 0;
    regions := [];
    NothingMade(blank, lines);
    for index := 0 to |lines|
      invariant start <= index && MadeUpTo(blank, lines, regions, start)
      invariant nonblank == Nonblank(blank, lines[start..index]) < NONBLANK_LINES_PER_REGION
      invariant Cutting(blank, lines, index, start, nonblank, regions) == RegionsOf(blank, lines)
    {
      NextLine(blank, lines, start, index);
      if !blank(lines[index]) {
        nonblank := nonblank + 1;
      }
      if nonblank == NONBLANK_LINES_PER_REGION {
        CloseRegion(blank, lines, regions, start, index + 1);
        regions := regions + [Region(|regions| + 1, start + 1, index + 1, lines[start..index + 1])];
        start, nonblank := index + 1, 0;
        NothingCounted(blank, lines, index + 1);
      }
    }
    assert lines[start..|lines|] == lines[start..];
    LastRegion(blank, lines, regions, start);
    if start < |lines| {
      regions := regions + [Region(|regions| + 1, start + 1, |lines|, lines[start..])];
    } else {
      assert regions + [] == regions;
    }
  }

  lemma NothingMade(blank: string -> bool, lines: seq<string>)
    ensures MadeUpTo(blank, lines, [], 0) && Nonblank(blank, lines[0..0]) == 0
  {
  }

  lemma NothingCounted(blank: string -> bool, lines: seq<string>, at: nat)
    requires at <= |lines|
    ensures Nonblank(blank, lines[at..at]) == 0
  {
  }

  lemma NextLine(blank: string -> bool, lines: seq<string>, start: nat, index: nat)
    requires start <= index < |lines|
    ensures Nonblank(blank, lines[start..index + 1]) ==
              Nonblank(blank, lines[start..index]) + if blank(lines[index]) then 0 else 1
  {
    assert lines[start..index + 1][..index - start] == lines[start..index];
  }

  ghost predicate Fillable(blank: string -> bool, lines: seq<string>) {
    lines != [] && (Nonblank(blank, lines) % NONBLANK_LINES_PER_REGION != 0 || !blank(lines[|lines| - 1]))
  }

  lemma LastRegion(blank: string -> bool, lines: seq<string>, made: seq<Region>, start: nat)
    requires MadeUpTo(blank, lines, made, start) && lines != []
    requires Nonblank(blank, lines[start..]) < NONBLANK_LINES_PER_REGION
    ensures var regions := made +
              (if start < |lines| then [Region(|made| + 1, start + 1, |lines|, lines[start..])] else []);
      IsUniverse(blank, lines, regions) <==> Fillable(blank, lines)
  {
    var regions := made + (if start < |lines| then [Region(|made| + 1, start + 1, |lines|, lines[start..])] else []);
    NothingCounted(blank, lines, |lines|);
    assert lines[|lines|..|lines|] == lines[|lines|..];
    hide Nonblank;
    NonblankSplits(blank, lines, start);
    var rest := Nonblank(blank, lines[start..]);
    assert Nonblank(blank, lines) % NONBLANK_LINES_PER_REGION == rest;
    if start < |lines| && rest == 0 {
      LastIsBlank(blank, lines[start..]);
      assert lines[start..][|lines| - start - 1] == lines[|lines| - 1];
      assert !RegionFits(blank, lines, regions, |made|);
    } else {
      forall k | 0 <= k < |regions| ensures RegionFits(blank, lines, regions, k) {
        if k < |made| {
          assert RegionMade(blank, lines, made, k);
        }
      }
      if start == |lines| {
        assert lines[..start] == lines;
      }
    }
  }

  lemma LastIsBlank(blank: string -> bool, lines: seq<string>)
    requires lines != [] && Nonblank(blank, lines) == 0
    ensures blank(lines[|lines| - 1])
  {
  }

  // ------------------------------------------------------- when there is a universe

  /** The full regions, and fewer nonblank lines than one more would need. */
  lemma {:induction false} FullRegions(blank: string -> bool, lines: seq<string>, index: nat)
    returns (made: seq<Region>, start: nat)
    requires index <= |lines|
    ensures start <= index && MadeUpTo(blank, lines, made, start)
    ensures Nonblank(blank, lines[start..index]) < NONBLANK_LINES_PER_REGION
    decreases index
  {
    if index == 0 {
      made, start := [], 0;
      NothingMade(blank, lines);
    } else {
      made, start := FullRegions(blank, lines, index - 1);
      hide MadeUpTo, Nonblank;
      NextLine(blank, lines, start, index - 1);
      if Nonblank(blank, lines[start..index]) == NONBLANK_LINES_PER_REGION {
        CloseRegion(blank, lines, made, start, index);
        made := made + [Region(|made| + 1, start + 1, index, lines[start..index])];
        start := index;
        NothingCounted(blank, lines, index);
      }
    }
  }

  lemma LastWithBlanks(blank: string -> bool, lines: seq<string>, from: nat, start: nat)
    requires from <= start <= |lines| && Nonblank(blank, lines[from..start]) == NONBLANK_LINES_PER_REGION
    requires Nonblank(blank, lines[start..]) == 0
    ensures Nonblank(blank, lines[from..]) == NONBLANK_LINES_PER_REGION
  {
    NonblankSplits(blank, lines[from..], start - from);
    assert lines[from..][..start - from] == lines[from..start] && lines[from..][start - from..] == lines[start..];
  }

  /** Blank lines behind full regions can join the last one. */
  lemma LastTakesBlanks(blank: string -> bool, lines: seq<string>, made: seq<Region>, start: nat)
    returns (regions: seq<Region>)
    requires MadeUpTo(blank, lines, made, start) && made != [] && Nonblank(blank, lines[start..]) == 0
    ensures IsUniverse(blank, lines, regions)
  {
    hide Nonblank;
    var n := |made| - 1;
    assert RegionMade(blank, lines, made, n);
    var from := made[n].startLine - 1;
    LastWithBlanks(blank, lines, from, start);
    var last := Region(n + 1, from + 1, |lines|, lines[from..]);
    assert lines[from..|lines|] == lines[from..];
    regions := made[..n] + [last];
    forall k | 0 <= k < |regions| ensures RegionFits(blank, lines, regions, k) {
      assert RegionMade(blank, lines, made, k);
    }
  }

  lemma UniverseHasPayload(blank: string -> bool, lines: seq<string>, regions: seq<Region>)
    requires IsUniverse(blank, lines, regions)
    ensures Nonblank(blank, lines) > 0
  {
    var n := |regions| - 1;
    assert RegionFits(blank, lines, regions, n);
    var from := regions[n].startLine - 1;
    assert lines[from..regions[n].endLine] == lines[from..];
    NonblankSplits(blank, lines, from);
  }

  /** A universe exists exactly when some line is not blank. */
  lemma UniverseExistsIff(blank: string -> bool, lines: seq<string>)
    ensures (exists regions :: IsUniverse(blank, lines, regions)) <==> Nonblank(blank, lines) > 0
  {
    if exists regions :: IsUniverse(blank, lines, regions) {
      var regions :| IsUniverse(blank, lines, regions);
      UniverseHasPayload(blank, lines, regions);
    }
    if Nonblank(blank, lines) > 0 {
      var made, start := FullRegions(blank, lines, |lines|);
      assert lines[start..|lines|] == lines[start..];
      NonblankSplits(blank, lines, start);
      hide IsUniverse, Nonblank;
      if start < |lines| && Nonblank(blank, lines[start..]) == 0 {
        NothingIsFull(blank, lines);
        var regions := LastTakesBlanks(blank, lines, made, start);
      } else {
        FillableThen(blank, lines, start);
        LastRegion(blank, lines, made, start);
      }
    }
  }

  lemma NothingIsFull(blank: string -> bool, lines: seq<string>)
    ensures Nonblank(blank, lines[..0]) == 0
  {
  }

  lemma FillableThen(blank: string -> bool, lines: seq<string>, start: nat)
    requires start <= |lines| && Nonblank(blank, lines) > 0
    requires start == |lines| ==> !blank(lines[|lines| - 1])
    requires Nonblank(blank, lines[..start]) % NONBLANK_LINES_PER_REGION == 0
    requires start < |lines| ==> 0 < Nonblank(blank, lines[start..]) < NONBLANK_LINES_PER_REGION
    ensures Fillable(blank, lines)
  {
    NonblankSplits(blank, lines, start);
  }

  /** Cutting refuses lines that have a universe exactly when their nonblank
      lines fill the regions and blank ones follow. */
  lemma RefusedThoughCuttableIff(blank: string -> bool, lines: seq<string>)
    requires lines != []
    ensures (!Fillable(blank, lines) && exists regions :: IsUniverse(blank, lines, regions)) <==>
              && Nonblank(blank, lines) > 0 && Nonblank(blank, lines) % NONBLANK_LINES_PER_REGION == 0
              && blank(lines[|lines| - 1])
  {
    UniverseExistsIff(blank, lines);
    hide IsUniverse, Nonblank;
  }

  function Repeated(line: string, n: nat): seq<string> {
    if n == 0 then [] else Repeated(line, n - 1) + [line]
  }

  lemma {:induction false} RepeatedCounts(blank: string -> bool, line: string, n: nat)
    requires !blank(line)
    ensures Nonblank(blank, Repeated(line, n)) == n && |Repeated(line, n)| == n
    ensures forall x | x in Repeated(line, n) :: x == line
    decreases n
  {
    if n > 0 {
      RepeatedCounts(blank, line, n - 1);
      assert Repeated(line, n)[..n - 1] == Repeated(line, n - 1);
    }
  }

  lemma {:induction false} LinesOfUnlines(lines: seq<string>)
    requires forall line | line in lines :: '\n' !in line
    ensures Lines(Unlines(lines)) == lines
    decreases |lines|
  {
    hide Lines, LineLength;
    if lines != [] {
      LinesOfUnlines(lines[1..]);
      LinesStep(lines[0], Unlines(lines[1..]));
      Associative(lines[0], "\n", Unlines(lines[1..]));
      assert lines == [lines[0]] + lines[1..];
    } else {
      NoLinesInNothing();
    }
  }

  lemma NoLinesInNothing()
    ensures Lines("") == []
  {
  }

  lemma LinesStep(line: string, rest: string)
    requires '\n' !in line
    ensures Lines(line + ("\n" + rest)) == [line] + Lines(rest)
  {
    hide LineLength;
    FirstLine(line, rest);
  }

  lemma {:induction false} FirstLine(line: string, rest: string)
    requires '\n' !in line
    ensures var document := line + ("\n" + rest);
      && LineLength(document) == |line| < |document|
      && document[..|line|] == line && document[|line| + 1..] == rest
    decreases |line|
  {
    var document := line + ("\n" + rest);
    if line != "" {
      FirstLine(line[1..], rest);
      assert document[1..] == line[1..] + ("\n" + rest);
    }
  }

  /** Two hundred nonblank lines and a blank one. */
  function OneLineTooMany(): seq<string> {
    Repeated("a", 200) + [""]
  }

  /** A document that is refused, although it has a universe. */
  lemma RefusedThoughCuttable()
    ensures var document := Unlines(OneLineTooMany());
      && document != "" && document[|document| - 1] == '\n'
      && !Fillable(Blank, Lines(document)) && exists regions :: IsUniverse(Blank, Lines(document), regions)
  {
    var full, lines := Repeated("a", 200), OneLineTooMany();
    assert !Blank("a") by { assert "a"[0] == 'a'; }
    RepeatedCounts(Blank, "a", 200);
    LinesOfUnlines(lines);
    UnlinesSplits(full, [""]);
    assert Unlines([""]) == "\n";
    assert lines[..|lines| - 1] == full;
    RefusedThoughCuttableIff(Blank, lines);
    hide IsUniverse, Fillable, Unlines, Repeated;
  }
}
