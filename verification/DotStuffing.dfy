/** The message text of an SMTP submission, and what a receiver makes of it
    (section 4.5.2 of RFC 5321). */
module DotStuffing {
  import opened Wrappers

  const CRLF := "\r\n"

  /** `split('\n')`: never empty, and no part has a line feed. */
  function Split(message: string): (lines: seq<string>)
    ensures lines != [] && forall i :: 0 <= i < |lines| ==> '\n' !in lines[i]
  {
    if message == "" then [""]
    else
      var lines := Split(message[1..]);
      if message[0] == '\n' then [""] + lines else [[message[0]] + lines[0]] + lines[1..]
  }

  function Unsplit(lines: seq<string>): string
    requires lines != []
  {
    if |lines| == 1 then lines[0] else lines[0] + "\n" + Unsplit(lines[1..])
  }

  /** The parts with line feeds between them are the message. */
  lemma {:induction false} SplitUnsplit(message: string)
    ensures Unsplit(Split(message)) == message
  {
    if message != "" {
      var lines := Split(message[1..]);
      SplitUnsplit(message[1..]);
      assert message == [message[0]] + message[1..];
      if message[0] == '\n' {
        assert ([""] + lines)[1..] == lines;
      } else {
        assert ([[message[0]] + lines[0]] + lines[1..])[1..] == lines[1..];
      }
    }
  }

  /** A line without its one trailing carriage return, if it has one. */
  function Stripped(line: string): string {
    if line != "" && line[|line| - 1] == '\r' then line[..|line| - 1] else line
  }

  function Stuffed(line: string): string {
    if line != "" && line[0] == '.' then "." + line else line
  }

  function Join(lines: seq<string>): string
    requires lines != []
  {
    if |lines| == 1 then lines[0] else lines[0] + CRLF + Join(lines[1..])
  }

  /** The lines that a message stands for. */
  function Lines(message: string): (lines: seq<string>)
    ensures lines != [] && forall i :: 0 <= i < |lines| ==> '\n' !in lines[i]
  {
    var parts := Split(message);
    seq(|parts|, i requires 0 <= i < |parts| => Stripped(parts[i]))
  }

  function AllStuffed(lines: seq<string>): (out: seq<string>)
    ensures |out| == |lines|
  {
    seq(|lines|, i requires 0 <= i < |lines| => Stuffed(lines[i]))
  }

  /** `dot_stuffed`. */
  function DotStuffed(message: string): string { Join(AllStuffed(Lines(message))) }

  /** What `smtp_submit` writes after `DATA`. */
  function Data(message: string): string { DotStuffed(message) + "\r\n.\r\n" }

  /** The text up to the first CRLF, and what follows it. */
  function ReadLine(s: string): (r: Option<(string, string)>)
    ensures r.Some? ==> |r.value.1| < |s|
  {
    if |s| < 2 then None
    else if s[0] == '\r' && s[1] == '\n' then Some(("", s[2..]))
    else
      match ReadLine(s[1..])
      case None => None
      case Some((line, rest)) => Some(([s[0]] + line, rest))
  }

  /** The receiver: a line of a single period ends the message, and a period that
      begins any other line is removed. */
  function Receive(s: string): Option<(seq<string>, string)>
    decreases |s|
  {
    match ReadLine(s)
    case None => None
    case Some((line, rest)) =>
      if line == "." then Some(([], rest))
      else
        match Receive(rest)
        case None => None
        case Some((lines, after)) =>
          Some(([if line != "" && line[0] == '.' then line[1..] else line] + lines, after))
  }

  lemma {:induction false} ReadsOneLine(line: string, rest: string)
    requires '\n' !in line
    ensures ReadLine(line + CRLF + rest) == Some((line, rest))
  {
    var s := line + CRLF + rest;
    if line == "" {
      assert s[2..] == rest;
    } else {
      assert s[1..] == line[1..] + CRLF + rest;
      ReadsOneLine(line[1..], rest);
      assert s[0] == line[0] && [line[0]] + line[1..] == line;
      if |line| == 1 { assert s[1] == '\r'; } else { assert s[1] == line[1]; }
    }
  }

  lemma ReceivesOneLine(line: string, tail: string, more: seq<string>, rest: string)
    requires '\n' !in line && Receive(tail) == Some((more, rest))
    ensures Receive(Stuffed(line) + CRLF + tail) == Some(([line] + more, rest))
  {
    ReadsOneLine(Stuffed(line), tail);
  }

  lemma ReceivesEnd(rest: string)
    ensures Receive("." + CRLF + rest) == Some(([], rest))
  {
    ReadsOneLine(".", rest);
  }

  lemma {:induction false} ReceivesLines(lines: seq<string>, rest: string)
    requires lines != [] && forall i :: 0 <= i < |lines| ==> '\n' !in lines[i]
    ensures Receive(Join(AllStuffed(lines)) + "\r\n.\r\n" + rest) == Some((lines, rest))
  {
    hide Receive, Stuffed;
    var s := Join(AllStuffed(lines)) + "\r\n.\r\n" + rest;
    if |lines| == 1 {
      assert s == Stuffed(lines[0]) + CRLF + ("." + CRLF + rest);
      ReceivesEnd(rest);
      ReceivesOneLine(lines[0], "." + CRLF + rest, [], rest);
      assert lines == [lines[0]] + [];
    } else {
      var tail := Join(AllStuffed(lines[1..])) + "\r\n.\r\n" + rest;
      assert AllStuffed(lines)[1..] == AllStuffed(lines[1..]);
      assert s == Stuffed(lines[0]) + CRLF + tail;
      ReceivesLines(lines[1..], rest);
      ReceivesOneLine(lines[0], tail, lines[1..], rest);
      assert lines == [lines[0]] + lines[1..];
    }
  }

  /** For every message, and whatever is sent after it, the receiver stops exactly at
      the terminator and has the message's lines. */
  lemma DotStuffingRoundTrip(message: string, rest: string)
    ensures Receive(Data(message) + rest) == Some((Lines(message), rest))
  {
    hide Receive, Lines, Join;
    assert Data(message) + rest == Join(AllStuffed(Lines(message))) + "\r\n.\r\n" + rest;
    ReceivesLines(Lines(message), rest);
  }

  // ---- what lines a message stands for ---------------------------------------

  /** Parts without line feeds, with line feeds between them, are the parts of the split. */
  lemma {:induction false} UnsplitSplit(parts: seq<string>)
    requires parts != [] && forall i :: 0 <= i < |parts| ==> '\n' !in parts[i]
    ensures Split(Unsplit(parts)) == parts
  {
    if |parts| == 1 {
      SplitOne(parts[0]);
    } else {
      UnsplitSplit(parts[1..]);
      SplitFirst(parts[0], Unsplit(parts[1..]));
    }
  }

  lemma {:induction false} SplitOne(part: string)
    requires '\n' !in part
    ensures Split(part) == [part]
  {
    if part != "" {
      SplitOne(part[1..]);
      assert part == [part[0]] + part[1..];
    }
  }

  lemma {:induction false} SplitFirst(part: string, more: string)
    requires '\n' !in part
    ensures Split(part + "\n" + more) == [part] + Split(more)
  {
    var s := part + "\n" + more;
    if part == "" {
      assert s[1..] == more;
    } else {
      assert s[1..] == part[1..] + "\n" + more;
      SplitFirst(part[1..], more);
      assert part == [part[0]] + part[1..];
    }
  }

  /** A line as it may stand in a message: before "\n" or "\r\n". */
  ghost predicate Written(raw: string, line: string) {
    && '\n' !in line
    && (raw == line + "\r" || (raw == line && (line == "" || line[|line| - 1] != '\r')))
  }

  /** Lines that are joined with "\n" or "\r\n", in any mixture, are sent with "\r\n" and
      with one period more on those that begin with one, and arrive as they are. */
  lemma LinesArrive(lines: seq<string>, raws: seq<string>, rest: string)
    requires lines != [] && |raws| == |lines|
    requires forall i :: 0 <= i < |lines| ==> Written(raws[i], lines[i])
    ensures Receive(Data(Unsplit(raws)) + rest) == Some((lines, rest))
    ensures Data(Unsplit(raws)) ==
      Join(seq(|lines|, i requires 0 <= i < |lines| => if ['.'] <= lines[i] then "." + lines[i] else lines[i])) + "\r\n.\r\n"
  {
    hide Receive, Join, Split, Unsplit;
    UnsplitSplit(raws);
    assert Lines(Unsplit(raws)) == lines;
    assert AllStuffed(lines) ==
      seq(|lines|, i requires 0 <= i < |lines| => if ['.'] <= lines[i] then "." + lines[i] else lines[i]);
    DotStuffingRoundTrip(Unsplit(raws), rest);
  }
}
