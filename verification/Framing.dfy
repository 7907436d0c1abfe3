/** The JSONL control frames of the adapter protocol: one frame per line, with a
    bounded length. What counts as a blank line is a parameter: the source
    trims Unicode space. */
module Framing {
  import opened Results
  import opened Sequences

  const MAX_FRAME_BYTES := 1048576

  datatype FrameError = EndOfInput | PartialFrame | FrameTooLarge

  datatype Event = Frame(line: string) | TooLarge | Partial | End {
    predicate Last() { Partial? || End? }
  }

  class Reader {
    const input: string
    var at: nat

    ghost predicate Valid()
      reads this
    {
      at <= |input|
    }

    function Rest(): string
      requires Valid()
      reads this
    {
      input[at..]
    }

    constructor (text: string)
      ensures Valid() && input == text && Rest() == text
    {
      input, at := text, 0;
    }

    /** Takes a line byte by byte; one that grows beyond the limit is consumed
        to its newline and reported. */
    method ReadLine(limit: nat) returns (result: Result<string, FrameError>)
      requires Valid()
      modifies this
      ensures Valid()
      ensures result == LineResult(old(Rest()), limit)
      ensures Rest() == AfterLine(old(Rest()))
    {
      var line, tooLarge := "", false;
      ghost var start := at;
      ghost var n := LineLength(Rest());
      while at < |input|
        invariant Valid() && start <= at <= start + n
        invariant tooLarge <==> at - start > limit
        invariant line == input[start..if tooLarge then start + limit else at]
      {
        var b := input[at];
        NoNewlineBefore(input, start, at);
        at := at + 1;
        if b == '\n' {
          assert Rest() == AfterLine(old(Rest()));
          if tooLarge {
            return Err(FrameTooLarge);
          }
          assert line == input[start..][..n];
          return Ok(line);
        }
        if !tooLarge {
          if |line| >= limit {
            tooLarge := true;
          } else {
            line := line + [b];
          }
        }
      }
      if line != "" || tooLarge {
        return Err(PartialFrame);
      }
      return Err(EndOfInput);
    }

    /** The next line that is not blank, or the reason there is none. */
    method ReadFrame(blank: string -> bool) returns (result: Result<string, FrameError>)
      requires Valid()
      modifies this
      ensures Valid()
      ensures result == FrameResult(blank, old(Rest())).result
      ensures Rest() == FrameResult(blank, old(Rest())).rest
    {
      while true
        invariant Valid() && FrameResult(blank, Rest()) == FrameResult(blank, old(Rest()))
        decreases |input| - at
      {
        ghost var before := Rest();
        result := ReadLine(MAX_FRAME_BYTES);
        if result.Err? {
          return result;
        }
        if !blank(result.value) {
          return result;
        }
        assert |Rest()| < |before|;
      }
    }

    /** Reads until the stream ends. */
    method ReadAll(blank: string -> bool) returns (events: seq<Event>)
      requires Valid()
      modifies this
      ensures events == EventsOf(blank, old(Rest()))
    {
      hide FrameResult, EventsOf;
      events := [];
      while true
        invariant Valid() && events + EventsOf(blank, Rest()) == EventsOf(blank, old(Rest()))
        decreases |input| - at
      {
        EventsStep(blank, events, Rest());
        var result := ReadFrame(blank);
        events := events + [EventOf(result)];
        if EventOf(result).Last() {
          return;
        }
      }
    }
  }

  lemma NoNewlineBefore(input: string, start: nat, at: nat)
    requires start <= at < |input| && at <= start + LineLength(input[start..])
    ensures input[at] == '\n' <==> at == start + LineLength(input[start..])
  {
    var n := LineLength(input[start..]);
    if at < start + n {
      assert input[start..][..n][at - start] == input[at];
    } else {
      assert input[start..][n] == input[at];
    }
  }

  // -------------------------------------------------------------- specification

  function LineResult(text: string, limit: nat): Result<string, FrameError> {
    var n := LineLength(text);
    if n == |text| then Err(if text == "" then EndOfInput else PartialFrame)
    else if n > limit then Err(FrameTooLarge)
    else Ok(text[..n])
  }

  function AfterLine(text: string): (rest: string)
    ensures text != "" ==> |rest| < |text|
  {
    var n := LineLength(text);
    if n == |text| then "" else text[n + 1..]
  }

  /** The outcome of one read, and what is left of the stream. */
  datatype Read = Read(result: Result<string, FrameError>, rest: string)

  function FrameResult(blank: string -> bool, text: string): (r: Read)
    ensures !EventOf(r.result).Last() ==> |r.rest| < |text|
    decreases |text|
  {
    var line := LineResult(text, MAX_FRAME_BYTES);
    if line.Ok? && blank(line.value) then FrameResult(blank, AfterLine(text)) else Read(line, AfterLine(text))
  }

  function EventOf(result: Result<string, FrameError>): Event {
    match result
    case Ok(line) => Frame(line)
    case Err(FrameTooLarge) => TooLarge
    case Err(PartialFrame) => Partial
    case Err(EndOfInput) => End
  }

  /** Everything a reader reports until the stream ends. */
  function EventsOf(blank: string -> bool, text: string): seq<Event>
    decreases |text|
  {
    var r := FrameResult(blank, text);
    [EventOf(r.result)] + if EventOf(r.result).Last() then [] else EventsOf(blank, r.rest)
  }

  lemma EventsStep(blank: string -> bool, before: seq<Event>, text: string)
    ensures var r := FrameResult(blank, text);
      before + EventsOf(blank, text)
      == (before + [EventOf(r.result)]) + if EventOf(r.result).Last() then [] else EventsOf(blank, r.rest)
  {
    hide FrameResult;
  }

  // ------------------------------------------------------------- line by line

  /** What one line amounts to: an error when it is too long, nothing when it is
      blank, and itself otherwise. */
  function LineEvents(blank: string -> bool, line: string): seq<Event> {
    if |line| > 1048576 then [TooLarge] else if blank(line) then [] else [Frame(line)]
  }

  function AllLineEvents(blank: string -> bool, lines: seq<string>): seq<Event> {
    if lines == [] then [] else LineEvents(blank, lines[0]) + AllLineEvents(blank, lines[1..])
  }

  lemma {:induction false} LineLengthIs(line: string, rest: string)
    requires '\n' !in line && (rest == "" || rest[0] == '\n')
    ensures LineLength(line + rest) == |line|
    decreases |line|
  {
    if line == "" {
      assert line + rest == rest;
    } else {
      assert (line + rest)[0] == line[0] && (line + rest)[1..] == line[1..] + rest;
      LineLengthIs(line[1..], rest);
    }
  }

  /** Any stream is read line by line, in order: whatever a line is, reading
      resumes with the next one; a tail without newline is a partial frame. */
  lemma {:induction false} ReadsLineByLine(blank: string -> bool, lines: seq<string>, tail: string)
    requires (forall line | line in lines :: '\n' !in line) && '\n' !in tail
    ensures EventsOf(blank, Unlines(lines) + tail)
         == AllLineEvents(blank, lines) + [if tail == "" then End else Partial]
    decreases |lines|
  {
    var text := Unlines(lines) + tail;
    if lines == [] {
      assert text == tail + "";
      LineLengthIs(tail, "");
    } else {
      assert lines[0] in lines;
      var rest := Unlines(lines[1..]) + tail;
      assert text == lines[0] + ("\n" + rest);
      LineLengthIs(lines[0], "\n" + rest);
      assert text[..|lines[0]|] == lines[0] && AfterLine(text) == rest;
      assert EventsOf(blank, text) == LineEvents(blank, lines[0]) + EventsOf(blank, rest) by { FirstLine(blank, text); }
      ReadsLineByLine(blank, lines[1..], tail);
    }
  }

  lemma FirstLine(blank: string -> bool, text: string)
    requires LineLength(text) < |text|
    ensures EventsOf(blank, text) == LineEvents(blank, text[..LineLength(text)]) + EventsOf(blank, AfterLine(text))
  {
    hide EventsOf, LineLength, AfterLine, LineResult;
    var line := text[..LineLength(text)];
    LineResultIs(text);
    if |line| > MAX_FRAME_BYTES {
      OtherLine(blank, text);
    } else if blank(line) {
      BlankLine(blank, text);
      assert LineEvents(blank, line) == [];
    } else {
      OtherLine(blank, text);
    }
  }

  lemma LineResultIs(text: string)
    requires LineLength(text) < |text|
    ensures var n := LineLength(text);
      LineResult(text, MAX_FRAME_BYTES) == if n > MAX_FRAME_BYTES then Err(FrameTooLarge) else Ok(text[..n])
    ensures |text[..LineLength(text)]| == LineLength(text)
  {
  }

  lemma BlankLine(blank: string -> bool, text: string)
    requires LineResult(text, MAX_FRAME_BYTES).Ok? && blank(LineResult(text, MAX_FRAME_BYTES).value)
    ensures EventsOf(blank, text) == EventsOf(blank, AfterLine(text))
  {
    assert FrameResult(blank, text) == FrameResult(blank, AfterLine(text));
  }

  lemma OtherLine(blank: string -> bool, text: string)
    requires var line := LineResult(text, MAX_FRAME_BYTES); line.Ok? ==> !blank(line.value)
    ensures var event := EventOf(LineResult(text, MAX_FRAME_BYTES));
      EventsOf(blank, text) == [event] + if event.Last() then [] else EventsOf(blank, AfterLine(text))
  {
    assert FrameResult(blank, text) == Read(LineResult(text, MAX_FRAME_BYTES), AfterLine(text));
  }

  // --------------------------------------------------------------------- writer

  class Writer {
    var stream: string

    constructor ()
      ensures stream == ""
    {
      stream := "";
    }

    /** Appends one encoded message and its newline, unless it is too large. */
    method Write(encoded: string) returns (result: Result<(), FrameError>)
      modifies this
      ensures result == if |encoded| > MAX_FRAME_BYTES then Err(FrameTooLarge) else Ok(())
      ensures stream == old(stream) + if result.Ok? then encoded + "\n" else ""
    {
      if |encoded| > MAX_FRAME_BYTES {
        return Err(FrameTooLarge);
      }
      stream := stream + encoded;
      stream := stream + "\n";
      return Ok(());
    }
  }

  lemma UnlinesThen(lines: seq<string>, line: string)
    ensures Unlines(lines + [line]) == Unlines(lines) + line + "\n"
  {
    UnlinesSplits(lines, [line]);
    assert [line][1..] == [];
  }

  /** Frames written one after the other come back as the same sequence. */
  method WriteThenRead(blank: string -> bool, messages: seq<string>) returns (events: seq<Event>)
    requires forall m | m in messages :: '\n' !in m && !blank(m) && |m| <= MAX_FRAME_BYTES
    ensures events == Frames(messages) + [End]
  {
    var writer := new Writer();
    for i := 0 to |messages|
      invariant fresh(writer) && writer.stream == Unlines(messages[..i])
    {
      assert messages[i] in messages && messages[..i + 1] == messages[..i] + [messages[i]];
      UnlinesThen(messages[..i], messages[i]);
      var written := writer.Write(messages[i]);
    }
    assert messages[..|messages|] == messages;
    var reader := new Reader(writer.stream);
    events := reader.ReadAll(blank);
    assert Unlines(messages) + "" == Unlines(messages);
    ReadsLineByLine(blank, messages, "");
    AllAreFrames(blank, messages);
  }

  function Frames(messages: seq<string>): seq<Event> {
    seq(|messages|, i requires 0 <= i < |messages| => Frame(messages[i]))
  }

  lemma {:induction false} AllAreFrames(blank: string -> bool, messages: seq<string>)
    requires forall m | m in messages :: !blank(m) && |m| <= MAX_FRAME_BYTES
    ensures AllLineEvents(blank, messages) == Frames(messages)
    decreases |messages|
  {
    if messages != [] {
      assert messages[0] in messages;
      AllAreFrames(blank, messages[1..]);
    }
  }
}
