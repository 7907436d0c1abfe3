/** The two-level diff of documents: byte edits from a script, lines first and
    bytes inside each changed hunk. A document has one character per byte. */
module DocumentDiff {
  import opened Myers

  datatype ByteEdit = ByteEdit(oldStart: nat, oldEnd: nat, newStart: nat, newEnd: nat) {
    function Shift(oldOffset: nat, newOffset: nat): ByteEdit {
      ByteEdit(oldStart + oldOffset, oldEnd + oldOffset, newStart + newOffset, newEnd + newOffset)
    }

    function Size(): int {
      oldEnd - oldStart + newEnd - newStart
    }
  }

  // -------------------------------------------------------- what edits mean

  ghost predicate Separated(before: ByteEdit, after: ByteEdit) {
    before.oldEnd < after.oldStart && before.newEnd < after.newStart
  }

  /** a[o..u] and b[p..v] hold the same items. */
  ghost predicate Common<T(!new)>(a: seq<T>, b: seq<T>, o: nat, u: nat, p: nat, v: nat) {
    && o <= u <= |a| && p <= v <= |b|
    && a[o..u] == b[p..v]
  }

  /** The edits turn a[..x] into b[..y]: they are in order, none is empty,
      consecutive ones are strictly separated in both documents, and everything
      outside them is common to both. */
  ghost predicate PatchesUpTo<T(!new)>(edits: seq<ByteEdit>, a: seq<T>, b: seq<T>, x: nat, y: nat) {
    if edits == [] then Common(a, b, 0, x, 0, y)
    else
      var earlier, e := edits[..|edits| - 1], edits[|edits| - 1];
      && e.oldStart <= e.oldEnd && e.newStart <= e.newEnd && e.Size() > 0
      && Common(a, b, e.oldEnd, x, e.newEnd, y)
      && (earlier != [] ==> Separated(earlier[|earlier| - 1], e))
      && PatchesUpTo(earlier, a, b, e.oldStart, e.newStart)
  }

  ghost predicate Patches<T(!new)>(edits: seq<ByteEdit>, a: seq<T>, b: seq<T>) {
    PatchesUpTo(edits, a, b, |a|, |b|)
  }

  /** Replaces in `a` every old range by the bytes of its new range. */
  ghost function Apply<T>(edits: seq<ByteEdit>, a: seq<T>, b: seq<T>, x: nat): seq<T>
    requires x <= |a|
  {
    if edits == [] then a[..x]
    else
      var e := edits[|edits| - 1];
      if e.oldStart <= e.oldEnd <= x && e.newStart <= e.newEnd <= |b| then
        Apply(edits[..|edits| - 1], a, b, e.oldStart) + b[e.newStart..e.newEnd] + a[e.oldEnd..x]
      else a[..x]
  }

  lemma {:induction false} ApplyUpTo<T(!new)>(edits: seq<ByteEdit>, a: seq<T>, b: seq<T>, x: nat, y: nat)
    requires PatchesUpTo(edits, a, b, x, y)
    ensures Apply(edits, a, b, x) == b[..y]
    decreases |edits|
  {
    if edits != [] {
      var e := edits[|edits| - 1];
      ApplyUpTo(edits[..|edits| - 1], a, b, e.oldStart, e.newStart);
    }
  }

  /** The patch theorem: replacing the old ranges by the new ones gives `b`. */
  lemma PatchTheorem<T(!new)>(edits: seq<ByteEdit>, a: seq<T>, b: seq<T>)
    requires Patches(edits, a, b)
    ensures Apply(edits, a, b, |a|) == b
  {
    ApplyUpTo(edits, a, b, |a|, |b|);
  }

  ghost function TotalSize(edits: seq<ByteEdit>): int {
    if edits == [] then 0 else TotalSize(edits[..|edits| - 1]) + edits[|edits| - 1].Size()
  }

  // ------------------------------------------------------- growing the patch

  lemma ExtendCommon<T(!new)>(a: seq<T>, b: seq<T>, o: nat, x: nat, u: nat, p: nat, y: nat, v: nat)
    requires Common(a, b, o, x, p, y) && Common(a, b, x, u, y, v)
    ensures Common(a, b, o, u, p, v)
  {
    assert a[o..u] == a[o..x] + a[x..u];
    assert b[p..v] == b[p..y] + b[y..v];
  }

  lemma ExtendGap<T(!new)>(edits: seq<ByteEdit>, a: seq<T>, b: seq<T>, x: nat, y: nat, u: nat, v: nat)
    requires PatchesUpTo(edits, a, b, x, y) && Common(a, b, x, u, y, v)
    ensures PatchesUpTo(edits, a, b, u, v)
  {
    hide Common;
    if edits == [] {
      ExtendCommon(a, b, 0, x, u, 0, y, v);
    } else {
      ExtendCommon(a, b, edits[|edits| - 1].oldEnd, x, u, edits[|edits| - 1].newEnd, y, v);
    }
  }

  lemma AddEdit<T(!new)>(edits: seq<ByteEdit>, e: ByteEdit, a: seq<T>, b: seq<T>, x: nat, y: nat)
    requires e.oldStart <= e.oldEnd && e.newStart <= e.newEnd && e.Size() > 0
    requires Common(a, b, e.oldEnd, x, e.newEnd, y)
    requires PatchesUpTo(edits, a, b, e.oldStart, e.newStart)
    requires edits != [] ==> Separated(edits[|edits| - 1], e)
    ensures PatchesUpTo(edits + [e], a, b, x, y) && TotalSize(edits + [e]) == TotalSize(edits) + e.Size()
  {
    assert (edits + [e])[..|edits|] == edits;
  }

  function ShiftAll(edits: seq<ByteEdit>, oldOffset: nat, newOffset: nat): (shifted: seq<ByteEdit>)
    ensures |shifted| == |edits|
    ensures edits != [] ==> shifted[|edits| - 1] == edits[|edits| - 1].Shift(oldOffset, newOffset)
  {
    if edits == [] then []
    else ShiftAll(edits[..|edits| - 1], oldOffset, newOffset) + [edits[|edits| - 1].Shift(oldOffset, newOffset)]
  }

  lemma SliceOfSlice<T>(a: seq<T>, from: nat, to: nat, i: nat, j: nat)
    requires from <= to <= |a| && i <= j <= to - from
    ensures a[from..to][i..j] == a[from + i..from + j]
  {
    var slice, direct := a[from..to][i..j], a[from + i..from + j];
    assert |slice| == |direct|;
    forall k | 0 <= k < |slice| ensures slice[k] == direct[k] {
      assert slice[k] == a[from..to][i + k] == a[from + (i + k)];
      assert direct[k] == a[from + i + k];
    }
  }

  lemma CommonInSlices<T(!new)>(a: seq<T>, b: seq<T>, x: nat, toX: nat, y: nat, toY: nat, o: nat, u: nat, p: nat,
                                v: nat)
    requires x <= toX <= |a| && y <= toY <= |b| && Common(a[x..toX], b[y..toY], o, u, p, v)
    ensures Common(a, b, x + o, x + u, y + p, y + v)
  {
    SliceOfSlice(a, x, toX, o, u);
    SliceOfSlice(b, y, toY, p, v);
  }

  lemma LastOfConcat<T>(front: seq<T>, back: seq<T>)
    ensures front + back != [] ==>
      (front + back)[|front + back| - 1] == if back == [] then front[|front| - 1] else back[|back| - 1]
  {
  }

  /** One edit of a hunk behind the already shifted earlier ones. */
  lemma AppendShifted<T(!new)>(
    edits: seq<ByteEdit>, a: seq<T>, b: seq<T>, x: nat, y: nat, hunk: seq<ByteEdit>, u: nat, v: nat)
    requires hunk != [] && hunk[|hunk| - 1].oldStart <= hunk[|hunk| - 1].oldEnd &&
               hunk[|hunk| - 1].newStart <= hunk[|hunk| - 1].newEnd
    requires hunk[|hunk| - 1].Size() > 0
    requires var e := hunk[|hunk| - 1].Shift(x, y); Common(a, b, e.oldEnd, u, e.newEnd, v)
    requires |hunk| > 1 ==> Separated(hunk[|hunk| - 2], hunk[|hunk| - 1])
    requires edits != [] ==> edits[|edits| - 1].oldEnd < x && edits[|edits| - 1].newEnd < y
    requires var e := hunk[|hunk| - 1].Shift(x, y);
      PatchesUpTo(edits + ShiftAll(hunk[..|hunk| - 1], x, y), a, b, e.oldStart, e.newStart)
    ensures PatchesUpTo(edits + ShiftAll(hunk, x, y), a, b, u, v)
  {
    hide PatchesUpTo, Common;
    var e := hunk[|hunk| - 1].Shift(x, y);
    var shifted := ShiftAll(hunk[..|hunk| - 1], x, y);
    LastOfConcat(edits, shifted);
    AddEdit(edits + shifted, e, a, b, u, v);
    assert edits + ShiftAll(hunk, x, y) == edits + shifted + [e];
  }

  lemma PatchParts<T(!new)>(edits: seq<ByteEdit>, a: seq<T>, b: seq<T>, x: nat, y: nat)
    requires edits != [] && PatchesUpTo(edits, a, b, x, y)
    ensures var earlier, e := edits[..|edits| - 1], edits[|edits| - 1];
      && e.oldStart <= e.oldEnd && e.newStart <= e.newEnd && e.Size() > 0
      && Common(a, b, e.oldEnd, x, e.newEnd, y)
      && (|edits| > 1 ==> Separated(edits[|edits| - 2], e))
      && PatchesUpTo(earlier, a, b, e.oldStart, e.newStart)
  {
  }

  /** The edits of a hunk, shifted to its place, extend a patch. */
  lemma {:induction false} AppendHunk<T(!new)>(
    edits: seq<ByteEdit>, a: seq<T>, b: seq<T>, x: nat, y: nat,
    hunk: seq<ByteEdit>, toX: nat, toY: nat, u: nat, v: nat)
    requires PatchesUpTo(edits, a, b, x, y) && x <= toX <= |a| && y <= toY <= |b|
    requires PatchesUpTo(hunk, a[x..toX], b[y..toY], u, v)
    requires edits != [] && hunk != [] ==> edits[|edits| - 1].oldEnd < x && edits[|edits| - 1].newEnd < y
    ensures PatchesUpTo(edits + ShiftAll(hunk, x, y), a, b, x + u, y + v)
    decreases |hunk|
  {
    hide Common;
    if hunk == [] {
      CommonInSlices(a, b, x, toX, y, toY, 0, u, 0, v);
      ExtendGap(edits, a, b, x, y, x + u, y + v);
      assert edits + ShiftAll(hunk, x, y) == edits;
    } else {
      hide PatchesUpTo, ShiftAll;
      PatchParts(hunk, a[x..toX], b[y..toY], u, v);
      var e := hunk[|hunk| - 1];
      AppendHunk(edits, a, b, x, y, hunk[..|hunk| - 1], toX, toY, e.oldStart, e.newStart);
      CommonInSlices(a, b, x, toX, y, toY, e.oldEnd, u, e.newEnd, v);
      AppendShifted(edits, a, b, x, y, hunk, x + u, y + v);
    }
  }

  // ------------------------------------------------------ edits from a script

  function Compare<T(==)>(a: seq<T>, b: seq<T>): (p: Problem)
    ensures p.Valid()
  {
    Problem(|a|, |b|, (i: nat, j: nat) requires i < |a| && j < |b| => a[i] == b[j])
  }

  lemma {:induction false} WalkOnlyAdvances(p: Problem, ops: seq<Operation>, x: nat, y: nat, toX: nat, toY: nat)
    requires p.Valid() && Walk(p, ops, x, y, toX, toY)
    ensures x <= toX && y <= toY
    decreases |ops|
  {
    if ops != [] {
      match ops[0]
      case Equal => WalkOnlyAdvances(p, ops[1..], x + 1, y + 1, toX, toY);
      case Delete => WalkOnlyAdvances(p, ops[1..], x + 1, y, toX, toY);
      case Insert => WalkOnlyAdvances(p, ops[1..], x, y + 1, toX, toY);
    }
  }

  /** The rest of a script, from operation i on, after x old and y new items. */
  ghost predicate Remaining<T(!new)>(a: seq<T>, b: seq<T>, ops: seq<Operation>, i: nat, x: nat, y: nat)
    requires i <= |ops|
  {
    Walk(Compare(a, b), ops[i..], x, y, |a|, |b|)
  }

  /** What the next operation of a script does. */
  lemma NextOperation<T(!new)>(a: seq<T>, b: seq<T>, ops: seq<Operation>, i: nat, x: nat, y: nat)
    requires i < |ops| && Remaining(a, b, ops, i, x, y)
    ensures ops[i] == Equal ==> x < |a| && y < |b| && a[x] == b[y] && Remaining(a, b, ops, i + 1, x + 1, y + 1)
    ensures ops[i] == Delete ==> x < |a| && Remaining(a, b, ops, i + 1, x + 1, y)
    ensures ops[i] == Insert ==> y < |b| && Remaining(a, b, ops, i + 1, x, y + 1)
    ensures x <= |a| && y <= |b|
    ensures Cost(ops[i..]) == Cost(ops[i + 1..]) + if ops[i] == Equal then 0 else 1
  {
    assert ops[i..][1..] == ops[i + 1..];
    match ops[i]
    case Equal => WalkOnlyAdvances(Compare(a, b), ops[i + 1..], x + 1, y + 1, |a|, |b|);
    case Delete => WalkOnlyAdvances(Compare(a, b), ops[i + 1..], x + 1, y, |a|, |b|);
    case Insert => WalkOnlyAdvances(Compare(a, b), ops[i + 1..], x, y + 1, |a|, |b|);
  }

  ghost predicate EndsBefore(edits: seq<ByteEdit>, x: nat, y: nat) {
    edits != [] ==> edits[|edits| - 1].oldEnd < x && edits[|edits| - 1].newEnd < y
  }

  /** No edit is open, and the last one lies strictly before (x, y). */
  ghost predicate Closed<T(!new)>(edits: seq<ByteEdit>, a: seq<T>, b: seq<T>, x: nat, y: nat) {
    PatchesUpTo(edits, a, b, x, y) && EndsBefore(edits, x, y)
  }

  /** `edit` is open: it ends at (x, y) and may still grow. */
  ghost predicate Open<T(!new)>(edits: seq<ByteEdit>, edit: ByteEdit, a: seq<T>, b: seq<T>, x: nat, y: nat) {
    && edit.oldStart <= edit.oldEnd == x <= |a| && edit.newStart <= edit.newEnd == y <= |b|
    && Closed(edits, a, b, edit.oldStart, edit.newStart)
  }

  lemma CloseEdit<T(!new)>(edits: seq<ByteEdit>, edit: ByteEdit, a: seq<T>, b: seq<T>, x: nat, y: nat)
    requires Open(edits, edit, a, b, x, y) && edit.Size() > 0
    ensures PatchesUpTo(edits + [edit], a, b, x, y)
    ensures EndsBefore(edits + [edit], x + 1, y + 1)
    ensures TotalSize(edits + [edit]) == TotalSize(edits) + edit.Size()
  {
    AddEdit(edits, edit, a, b, x, y);
  }

  lemma PassEqual<T(!new)>(edits: seq<ByteEdit>, a: seq<T>, b: seq<T>, x: nat, y: nat)
    requires PatchesUpTo(edits, a, b, x, y) && EndsBefore(edits, x + 1, y + 1)
    requires x < |a| && y < |b| && a[x] == b[y]
    ensures Closed(edits, a, b, x + 1, y + 1)
  {
    assert Common(a, b, x, x + 1, y, y + 1);
    ExtendGap(edits, a, b, x, y, x + 1, y + 1);
  }

  /** Collects each run of insertions and deletions into one edit. */
  method EditsFromOperations<T(!new)>(ghost a: seq<T>, ghost b: seq<T>, operations: seq<Operation>)
    returns (edits: seq<ByteEdit>)
    requires IsScript(Compare(a, b), operations)
    ensures Patches(edits, a, b)
    ensures TotalSize(edits) == Cost(operations)
  {
    hide PatchesUpTo, Walk, Cost, TotalSize, Remaining;
    edits := [];
    var oldPosition: nat, newPosition: nat := 0, 0;
    var active := false;
    var edit := ByteEdit(0, 0, 0, 0);
    StartOfScript(a, b, operations);
    for i := 0 to |operations|
      invariant Remaining(a, b, operations, i, oldPosition, newPosition)
      invariant active ==> Open(edits, edit, a, b, oldPosition, newPosition) && edit.Size() > 0
      invariant !active ==>
                  PatchesUpTo(edits, a, b, oldPosition, newPosition) && EndsBefore(edits, oldPosition, newPosition)
      invariant TotalSize(edits) + (if active then edit.Size() else 0) + Cost(operations[i..]) == Cost(operations)
    {
      NextOperation(a, b, operations, i, oldPosition, newPosition);
      if operations[i] == Equal {
        if active {
          CloseEdit(edits, edit, a, b, oldPosition, newPosition);
          edits := edits + [edit];
          active := false;
        }
        PassEqual(edits, a, b, oldPosition, newPosition);
        oldPosition, newPosition := oldPosition + 1, newPosition + 1;
      } else {
        if !active {
          edit := ByteEdit(oldPosition, oldPosition, newPosition, newPosition);
          active := true;
        }
        if operations[i] == Delete {
          oldPosition := oldPosition + 1;
          edit := edit.(oldEnd := oldPosition);
        } else {
          newPosition := newPosition + 1;
          edit := edit.(newEnd := newPosition);
        }
      }
    }
    EndOfScript(a, b, operations, oldPosition, newPosition);
    if active {
      CloseEdit(edits, edit, a, b, oldPosition, newPosition);
      edits := edits + [edit];
    }
  }

  lemma StartOfScript<T(!new)>(a: seq<T>, b: seq<T>, ops: seq<Operation>)
    requires IsScript(Compare(a, b), ops)
    ensures Remaining(a, b, ops, 0, 0, 0) && ops[0..] == ops
    ensures PatchesUpTo([], a, b, 0, 0) && TotalSize([]) == 0
  {
    assert ops[0..] == ops;
  }

  lemma EndOfScript<T(!new)>(a: seq<T>, b: seq<T>, ops: seq<Operation>, x: nat, y: nat)
    requires Remaining(a, b, ops, |ops|, x, y)
    ensures x == |a| && y == |b| && Cost(ops[|ops|..]) == 0
  {
  }

  /** Shortest byte edits between two documents. */
  method RawByteDiff(oldDocument: seq<char>, newDocument: seq<char>) returns (result: DiffResult<seq<ByteEdit>>)
    ensures result.Found? ==> Patches(result.value, oldDocument, newDocument)
    ensures result.Found? ==>
              forall ops | IsScript(Compare(oldDocument, newDocument), ops) :: TotalSize(result.value) <= Cost(ops)
    ensures result.Found? <==> WithinLimit(Compare(oldDocument, newDocument))
    ensures result.Failed? ==> result.error == LimitExceeded
  {
    var operations := MyersOperations(Compare(oldDocument, newDocument));
    match operations
    case Failed(error) => return Failed(error);
    case Found(script) =>
      var edits := EditsFromOperations(oldDocument, newDocument, script);
      return Found(edits);
  }

  // -------------------------------------------------------------------- lines

  function Concat(lines: seq<seq<char>>): seq<char> {
    if lines == [] then [] else lines[0] + Concat(lines[1..])
  }

  predicate Terminated(line: seq<char>) {
    line != [] && line[|line| - 1] == '\n' && '\n' !in line[..|line| - 1]
  }

  /** Cuts after every newline; the last piece, possibly empty, has none. */
  function SplitAfter(document: seq<char>): (pieces: seq<seq<char>>)
    ensures pieces != [] && Concat(pieces) == document
  {
    if document == [] then [[]]
    else if document[0] == '\n' then [['\n']] + SplitAfter(document[1..])
    else
      var rest := SplitAfter(document[1..]);
      [[document[0]] + rest[0]] + rest[1..]
  }

  lemma {:induction false} SplitAfterTerminates(document: seq<char>)
    ensures var pieces := SplitAfter(document);
      && (forall i | 0 <= i < |pieces| - 1 :: Terminated(pieces[i]))
      && '\n' !in pieces[|pieces| - 1]
    decreases |document|
  {
    if document != [] {
      SplitAfterTerminates(document[1..]);
      if document[0] != '\n' {
        PrependToLine(document[0], SplitAfter(document[1..])[0]);
      }
    }
  }

  lemma PrependToLine(c: char, line: seq<char>)
    requires c != '\n'
    ensures Terminated(line) ==> Terminated([c] + line)
    ensures '\n' !in line ==> '\n' !in [c] + line
  {
    if line != [] {
      assert ([c] + line)[..|line|] == [c] + line[..|line| - 1];
    }
  }

  lemma {:induction false} ConcatDropsEmpty(lines: seq<seq<char>>)
    requires lines != [] && lines[|lines| - 1] == []
    ensures Concat(lines[..|lines| - 1]) == Concat(lines)
    decreases |lines|
  {
    if |lines| > 1 {
      ConcatDropsEmpty(lines[1..]);
      assert lines[..|lines| - 1][1..] == lines[1..][..|lines| - 2];
    }
  }

  function SplitLines(document: seq<char>): (lines: seq<seq<char>>)
    ensures Concat(lines) == document && forall line | line in lines :: line != []
    ensures forall i | 0 <= i < |lines| - 1 :: Terminated(lines[i])
    ensures lines != [] ==> Terminated(lines[|lines| - 1]) || '\n' !in lines[|lines| - 1]
  {
    var pieces := SplitAfter(document);
    SplitAfterTerminates(document);
    if pieces[|pieces| - 1] == [] then
      ConcatDropsEmpty(pieces);
      pieces[..|pieces| - 1]
    else pieces
  }

  /** Byte position where line k starts. */
  function Offset(lines: seq<seq<char>>, k: nat): nat
    requires k <= |lines|
  {
    if k == 0 then 0 else |lines[0]| + Offset(lines[1..], k - 1)
  }

  lemma {:induction false} LineAt(lines: seq<seq<char>>, k: nat)
    requires k < |lines|
    ensures Offset(lines, k + 1) == Offset(lines, k) + |lines[k]| <= |Concat(lines)|
    ensures Concat(lines)[Offset(lines, k)..Offset(lines, k + 1)] == lines[k]
    decreases k
  {
    if k > 0 {
      LineAt(lines[1..], k - 1);
      var rest := Concat(lines[1..]);
      var from, to := Offset(lines[1..], k - 1), Offset(lines[1..], k);
      assert (lines[0] + rest)[|lines[0]| + from..|lines[0]| + to] == rest[from..to];
    }
  }

  lemma {:induction false} OffsetEnd(lines: seq<seq<char>>)
    ensures Offset(lines, |lines|) == |Concat(lines)|
    decreases |lines|
  {
    if lines != [] {
      OffsetEnd(lines[1..]);
    }
  }

  // ----------------------------------------------------------- the whole diff

  /** Operations [from, to) of a line script, and the lines they lie between. */
  datatype Hunk = Hunk(from: nat, to: nat, oldLine: nat, newLine: nat, oldNext: nat, newNext: nat)

  /** A longest run of deleted and inserted lines in a script. */
  ghost predicate IsHunk(oldLines: seq<seq<char>>, newLines: seq<seq<char>>, ops: seq<Operation>, h: Hunk) {
    && h.from < h.to <= |ops| && (forall k | h.from <= k < h.to :: ops[k] != Equal)
    && (h.from == 0 || ops[h.from - 1] == Equal) && (h.to == |ops| || ops[h.to] == Equal)
    && Remaining(oldLines, newLines, ops, h.from, h.oldLine, h.newLine)
    && Remaining(oldLines, newLines, ops, h.to, h.oldNext, h.newNext)
  }

  /** The bytes of the hunk's old and new lines are beyond the edit limit. */
  ghost predicate TooFarApart(a: seq<char>, b: seq<char>, oldLines: seq<seq<char>>, newLines: seq<seq<char>>, h: Hunk) {
    && h.oldLine <= h.oldNext <= |oldLines| && h.newLine <= h.newNext <= |newLines|
    && var o, u := Offset(oldLines, h.oldLine), Offset(oldLines, h.oldNext);
    var p, v := Offset(newLines, h.newLine), Offset(newLines, h.newNext);
    o <= u <= |a| && p <= v <= |b| && !WithinLimit(Compare(a[o..u], b[p..v]))
  }

  /** Some shortest line script has a hunk whose bytes are too far apart. */
  ghost predicate HunkTooLong(a: seq<char>, b: seq<char>, oldLines: seq<seq<char>>, newLines: seq<seq<char>>) {
    exists ops, h :: IsShortest(Compare(oldLines, newLines), ops) && IsHunk(oldLines, newLines, ops, h)
                     && TooFarApart(a, b, oldLines, newLines, h)
  }

  /** Position inside both documents after whole lines have been consumed. */
  ghost predicate AtLines(oldLines: seq<seq<char>>, newLines: seq<seq<char>>, oldLine: nat, newLine: nat, x: nat,
                          y: nat)
  {
    && oldLine <= |oldLines| && newLine <= |newLines|
    && x == Offset(oldLines, oldLine) && y == Offset(newLines, newLine)
  }

  lemma PassEqualLine(edits: seq<ByteEdit>, a: seq<char>, b: seq<char>, oldLines: seq<seq<char>>,
                      newLines: seq<seq<char>>,
                      oldLine: nat, newLine: nat, x: nat, y: nat)
    requires Concat(oldLines) == a && Concat(newLines) == b
    requires oldLine < |oldLines| && newLine < |newLines| && oldLines[oldLine] == newLines[newLine] != []
    requires AtLines(oldLines, newLines, oldLine, newLine, x, y) && PatchesUpTo(edits, a, b, x, y)
    ensures var length := |oldLines[oldLine]|;
      && AtLines(oldLines, newLines, oldLine + 1, newLine + 1, x + length, y + length)
      && Closed(edits, a, b, x + length, y + length)
  {
    hide Concat, Offset, PatchesUpTo;
    var length := |oldLines[oldLine]|;
    LineAt(oldLines, oldLine);
    LineAt(newLines, newLine);
    assert Common(a, b, x, x + length, y, y + length);
    EditsEndInside(edits, a, b, x, y);
    ExtendGap(edits, a, b, x, y, x + length, y + length);
  }

  lemma EditsEndInside<T(!new)>(edits: seq<ByteEdit>, a: seq<T>, b: seq<T>, x: nat, y: nat)
    requires PatchesUpTo(edits, a, b, x, y)
    ensures EndsBefore(edits, x + 1, y + 1) && x <= |a| && y <= |b|
  {
  }

  lemma AddHunk(edits: seq<ByteEdit>, hunk: seq<ByteEdit>, a: seq<char>, b: seq<char>, x: nat, toX: nat, y: nat,
                toY: nat)
    requires Closed(edits, a, b, x, y) && x <= toX <= |a| && y <= toY <= |b|
    requires Patches(hunk, a[x..toX], b[y..toY])
    ensures PatchesUpTo(edits + ShiftAll(hunk, x, y), a, b, toX, toY)
  {
    AppendHunk(edits, a, b, x, y, hunk, toX, toY, toX - x, toY - y);
  }

  lemma ShiftNext(hunk: seq<ByteEdit>, j: nat, x: nat, y: nat)
    requires j < |hunk|
    ensures ShiftAll(hunk[..j + 1], x, y) == ShiftAll(hunk[..j], x, y) + [hunk[j].Shift(x, y)]
  {
    assert hunk[..j + 1][..j] == hunk[..j];
  }

  /** Appends the edits of one hunk, moved from the hunk to the document. */
  method AppendShiftedEdits(before: seq<ByteEdit>, hunk: seq<ByteEdit>, oldStart: nat, newStart: nat)
    returns (edits: seq<ByteEdit>)
    ensures edits == before + ShiftAll(hunk, oldStart, newStart)
  {
    edits := before;
    for j := 0 to |hunk|
      invariant edits == before + ShiftAll(hunk[..j], oldStart, newStart)
    {
      ShiftNext(hunk, j, oldStart, newStart);
      edits := edits + [hunk[j].Shift(oldStart, newStart)];
    }
    assert hunk[..|hunk|] == hunk;
  }

  /** Consumes one run of inserted and deleted lines. */
  method ConsumeHunk(oldLines: seq<seq<char>>, newLines: seq<seq<char>>, operations: seq<Operation>,
                     i: nat, oldLine: nat, newLine: nat, x: nat, y: nat)
    returns (index: nat, oldNext: nat, newNext: nat, toX: nat, toY: nat)
    requires i < |operations| && operations[i] != Equal
    requires Remaining(oldLines, newLines, operations, i, oldLine, newLine)
    requires AtLines(oldLines, newLines, oldLine, newLine, x, y)
    ensures i < index <= |operations| && (index < |operations| ==> operations[index] == Equal)
    ensures (forall k | i <= k < index :: operations[k] != Equal) && oldLine <= oldNext && newLine <= newNext
    ensures Remaining(oldLines, newLines, operations, index, oldNext, newNext)
    ensures AtLines(oldLines, newLines, oldNext, newNext, toX, toY)
    ensures x <= toX <= |Concat(oldLines)| && y <= toY <= |Concat(newLines)|
  {
    hide Remaining, Offset, Concat, Cost;
    index, oldNext, newNext, toX, toY := i, oldLine, newLine, x, y;
    while index < |operations| && operations[index] != Equal
      invariant i <= index <= |operations| && (index == i ==> operations[i] != Equal)
      invariant Remaining(oldLines, newLines, operations, index, oldNext, newNext)
      invariant AtLines(oldLines, newLines, oldNext, newNext, toX, toY)
      invariant x <= toX && y <= toY && oldLine <= oldNext && newLine <= newNext
      invariant forall k | i <= k < index :: operations[k] != Equal
    {
      NextOperation(oldLines, newLines, operations, index, oldNext, newNext);
      if operations[index] == Delete {
        LineAt(oldLines, oldNext);
        toX, oldNext := toX + |oldLines[oldNext]|, oldNext + 1;
      } else {
        LineAt(newLines, newNext);
        toY, newNext := toY + |newLines[newNext]|, newNext + 1;
      }
      index := index + 1;
    }
    OffsetWithin(oldLines, oldNext);
    OffsetWithin(newLines, newNext);
  }

  lemma OffsetWithin(lines: seq<seq<char>>, k: nat)
    requires k <= |lines|
    ensures Offset(lines, k) <= |Concat(lines)|
  {
    if k < |lines| {
      LineAt(lines, k);
    } else {
      OffsetEnd(lines);
    }
  }

  /** Edits that turn the old document into the new one. It fails only when the
      lines, or the bytes of some hunk, are too far apart. */
  method DiffBytes(oldDocument: seq<char>, newDocument: seq<char>) returns (result: DiffResult<seq<ByteEdit>>)
    ensures result.Found? ==> Patches(result.value, oldDocument, newDocument)
    ensures result.Found? ==> WithinLimit(Compare(SplitLines(oldDocument), SplitLines(newDocument)))
    ensures result.Failed? ==>
      && result.error == LimitExceeded
      && (WithinLimit(Compare(SplitLines(oldDocument), SplitLines(newDocument))) ==>
            HunkTooLong(oldDocument, newDocument, SplitLines(oldDocument), SplitLines(newDocument)))
    ensures oldDocument == newDocument ==> result == Found([])
  {
    hide PatchesUpTo, Walk, Cost, Remaining, Offset, Concat, SplitLines, ShiftAll, Common, WithinLimit;
    var oldLines, newLines := SplitLines(oldDocument), SplitLines(newDocument);
    var script := MyersOperations(Compare(oldLines, newLines));
    if oldDocument == newDocument {
      SameItemsNoCost(oldLines);
    }
    if script.Failed? {
      return Failed(script.error);
    }
    var operations := script.value;
    var edits: seq<ByteEdit> := [];
    var oldLine: nat, newLine: nat, oldByte: nat, newByte: nat := 0, 0, 0, 0;
    var index := 0;
    StartOfLines(oldDocument, newDocument, oldLines, newLines, operations);
    if oldDocument == newDocument {
      NoCost(operations);
    }
    while index < |operations|
      invariant 0 <= index <= |operations|
      invariant Remaining(oldLines, newLines, operations, index, oldLine, newLine)
      invariant AtLines(oldLines, newLines, oldLine, newLine, oldByte, newByte)
      invariant PatchesUpTo(edits, oldDocument, newDocument, oldByte, newByte)
      invariant index < |operations| && operations[index] != Equal ==> EndsBefore(edits, oldByte, newByte)
      invariant index < |operations| && operations[index] != Equal ==> index == 0 || operations[index - 1] == Equal
      invariant oldDocument == newDocument ==> edits == []
    {
      if operations[index] == Equal {
        NextOperation(oldLines, newLines, operations, index, oldLine, newLine);
        assert oldLines[oldLine] in oldLines;
        PassEqualLine(edits, oldDocument, newDocument, oldLines, newLines, oldLine, newLine, oldByte, newByte);
        oldByte, newByte := oldByte + |oldLines[oldLine]|, newByte + |newLines[newLine]|;
        oldLine, newLine, index := oldLine + 1, newLine + 1, index + 1;
      } else {
        var oldStart, newStart := oldByte, newByte;
        ghost var from, oldFirst, newFirst := index, oldLine, newLine;
        index, oldLine, newLine, oldByte, newByte :=
          ConsumeHunk(oldLines, newLines, operations, index, oldLine, newLine, oldByte, newByte);
        var hunk := RawByteDiff(oldDocument[oldStart..oldByte], newDocument[newStart..newByte]);
        if hunk.Failed? {
          ghost var h := Hunk(from, index, oldFirst, newFirst, oldLine, newLine);
          assert IsHunk(oldLines, newLines, operations, h) &&
            TooFarApart(oldDocument, newDocument, oldLines, newLines, h);
          return Failed(hunk.error);
        }
        AddHunk(edits, hunk.value, oldDocument, newDocument, oldStart, oldByte, newStart, newByte);
        edits := AppendShiftedEdits(edits, hunk.value, oldStart, newStart);
      }
    }
    EndOfScript(oldLines, newLines, operations, oldLine, newLine);
    OffsetEnd(oldLines);
    OffsetEnd(newLines);
    return Found(edits);
  }

  /** Equal sequences have a script that only passes items. */
  lemma SameItemsNoCost<T(!new)>(a: seq<T>)
    ensures WithinLimit(Compare(a, a))
    ensures forall ops | IsShortest(Compare(a, a), ops) :: Cost(ops) <= 0
  {
    AllEqual(a, 0);
  }

  lemma {:induction false} AllEqual<T(!new)>(a: seq<T>, x: nat)
    requires x <= |a|
    ensures exists ops :: Walk(Compare(a, a), ops, x, x, |a|, |a|) && Cost(ops) == 0
    decreases |a| - x
  {
    if x == |a| {
      assert Walk(Compare(a, a), [], x, x, |a|, |a|);
      assert Cost([]) == 0;
    } else {
      AllEqual(a, x + 1);
      var rest :| Walk(Compare(a, a), rest, x + 1, x + 1, |a|, |a|) && Cost(rest) == 0;
      var ops := [Equal] + rest;
      assert ops[0] == Equal && ops[1..] == rest;
      assert Walk(Compare(a, a), ops, x, x, |a|, |a|) && Cost(ops) == 0;
    }
  }

  lemma {:induction false} NoCost(ops: seq<Operation>)
    requires Cost(ops) <= 0
    ensures forall k | 0 <= k < |ops| :: ops[k] == Equal
    decreases |ops|
  {
    if ops != [] {
      NoCost(ops[1..]);
      assert ops == [ops[0]] + ops[1..];
    }
  }

  lemma StartOfLines(a: seq<char>, b: seq<char>, oldLines: seq<seq<char>>, newLines: seq<seq<char>>,
                     ops: seq<Operation>)
    requires IsScript(Compare(oldLines, newLines), ops)
    ensures Remaining(oldLines, newLines, ops, 0, 0, 0)
    ensures AtLines(oldLines, newLines, 0, 0, 0, 0) && Closed([], a, b, 0, 0)
  {
    StartOfScript(oldLines, newLines, ops);
  }
}
