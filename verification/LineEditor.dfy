/** The client's line editor (TcpClient/FileHandler.cpp, WriteAtLine) over C++ input streams. */
module LineEditor {
  import opened Encodings
  import opened Wrappers

  /** An input stream: what is left to read and the two state bits. */
  datatype Stream = Stream(rest: Text, eof: bool, failed: bool) {
    predicate Good() { !eof && !failed }
  }

  function Open(contents: Text): Stream { Stream(contents, false, false) }

  /** The length of the first line, without its newline. */
  function LineEnd(s: Text): (k: nat)
    ensures k <= |s|
  {
    if s == [] || s[0] == NEWLINE then 0 else 1 + LineEnd(s[1..])
  }

  lemma {:induction false} LineEndMeans(s: Text)
    ensures LineEnd(s) < |s| ==> s[LineEnd(s)] == NEWLINE
    ensures forall i :: 0 <= i < LineEnd(s) ==> s[i] != NEWLINE
  {
    if s != [] && s[0] != NEWLINE {
      LineEndMeans(s[1..]);
      forall i | 0 < i < LineEnd(s) ensures s[i] != NEWLINE {
        assert s[i] == s[1..][i - 1];
      }
    }
  }

  /** std::getline: a stream that is not good is marked failed and the line variable keeps what it
      held; reading up to the end of input sets eof, and reading nothing there fails as well. */
  function GetLine(stream: Stream, line: Text): (Stream, Text) {
    if !stream.Good() then (stream.(failed := true), line)
    else if stream.rest == [] then (Stream([], true, true), [])
    else
      var k := LineEnd(stream.rest);
      if k == |stream.rest| then (Stream([], true, false), stream.rest)
      else (Stream(stream.rest[k + 1..], false, false), stream.rest[..k])
  }

  /** The lines of a file; a last line need not have its newline. */
  function Lines(s: Text): seq<Text> {
    if s == [] then []
    else
      var k := LineEnd(s);
      if k == |s| then [s] else [s[..k]] + Lines(s[k + 1..])
  }

  predicate Terminated(s: Text) { s == [] || s[|s| - 1] == NEWLINE }

  lemma UnterminatedHasLast(s: Text)
    requires !Terminated(s)
    ensures Lines(s) != [] && Lines(s)[|Lines(s)| - 1] != []
    decreases |s|
  {
    LineEndMeans(s);
    var k := LineEnd(s);
    LastCharacter(s, k);
    if k < |s| {
      UnterminatedHasLast(s[k + 1..]);
    }
  }

  /** What gets written back: each line and a newline. */
  function Written(lines: seq<Text>): Text {
    if lines == [] then [] else lines[0] + [NEWLINE] + Written(lines[1..])
  }

  /** A line, unless it is empty. */
  function IfAny(line: Text): seq<Text> { if line == [] then [] else [line] }

  function NonEmpty(lines: seq<Text>): seq<Text> {
    if lines == [] then [] else IfAny(lines[0]) + NonEmpty(lines[1..])
  }

  lemma {:induction false} NonEmptyAppend(a: seq<Text>, b: seq<Text>)
    ensures NonEmpty(a + b) == NonEmpty(a) + NonEmpty(b)
  {
    hide IfAny;
    if a == [] {
      assert a + b == b;
    } else {
      NonEmptyAppend(a[1..], b);
      assert (a + b)[1..] == a[1..] + b;
      assert NonEmpty(a + b) == IfAny(a[0]) + (NonEmpty(a[1..]) + NonEmpty(b));
    }
  }

  lemma NonEmptyOne(line: Text)
    ensures NonEmpty([line]) == IfAny(line)
  {
    assert [line][1..] == [];
  }

  function Least(a: nat, b: nat): nat { if a < b then a else b }

  /** The lines held after `i` turns of the loop. Past the end of a file without a last newline
      every turn up to `at` pushes the last line once more. */
  function Held(s: Text, content: Text, at: nat, i: nat): seq<Text> {
    var lines := Lines(s);
    var seen := if i < |lines| then i else |lines|;
    if i <= at then NonEmpty(lines[..seen]) + Repeats(s, i)
    else if at < |lines| then
      NonEmpty(lines[..at + 1]) + [content] + NonEmpty(lines[at + 1..if seen < at + 1 then at + 1 else seen])
    else NonEmpty(lines) + Repeats(s, at + 1) + [content]
  }

  function Repeats(s: Text, i: nat): seq<Text> {
    var lines := Lines(s);
    if Terminated(s) || i <= |lines| then []
    else
      UnterminatedHasLast(s);
      Repeat(lines[|lines| - 1], i - |lines|)
  }

  /** The file's lines after WriteAtLine: empty lines dropped, the content after line `at`. */
  function Edited(s: Text, content: Text, at: nat): seq<Text> {
    var lines := Lines(s);
    if at < |lines| then NonEmpty(lines[..at + 1]) + [content] + NonEmpty(lines[at + 1..])
    else NonEmpty(lines) + Repeats(s, at + 1) + [content]
  }

  /** What the stream and the line variable are after `i` calls of getline on a fresh stream. */
  ghost predicate After(s: Text, i: nat, stream: Stream, line: Text) {
    var lines := Lines(s);
    && (stream.failed ==> stream.eof)
    && (!stream.eof ==> i <= |lines| && Lines(stream.rest) == lines[i..] && (Terminated(stream.rest) <==> Terminated(s)))
    && (stream.eof && Terminated(s) ==> i > |lines| && line == [])
    && (stream.eof && !Terminated(s) ==> i >= |lines| > 0 && line == lines[|lines| - 1])
  }

  lemma AfterGetLine(s: Text, i: nat, stream: Stream, line: Text)
    requires After(s, i, stream, line)
    ensures After(s, i + 1, GetLine(stream, line).0, GetLine(stream, line).1)
    ensures i < |Lines(s)| ==> GetLine(stream, line).1 == Lines(s)[i]
    ensures i >= |Lines(s)| && Terminated(s) ==> GetLine(stream, line).1 == []
    ensures i >= |Lines(s)| && !Terminated(s) ==> |Lines(s)| > 0 && GetLine(stream, line).1 == Lines(s)[|Lines(s)| - 1]
  {
    hide LineEnd;
    if !Terminated(s) {
      UnterminatedHasLast(s);
    }
    if stream.Good() && stream.rest != [] {
      NextLine(stream.rest);
      hide Lines, Terminated;
      TailLine(Lines(s), i);
    }
  }

  /** Lines and termination, one line at a time. */
  lemma NextLine(rest: Text)
    requires rest != []
    ensures LineEnd(rest) == |rest| ==> Lines(rest) == [rest] && !Terminated(rest)
    ensures LineEnd(rest) < |rest| ==> Lines(rest) == [rest[..LineEnd(rest)]] + Lines(rest[LineEnd(rest) + 1..])
    ensures LineEnd(rest) < |rest| ==> (Terminated(rest[LineEnd(rest) + 1..]) <==> Terminated(rest))
  {
    LinesUnfold(rest);
    LineEndMeans(rest);
    hide LineEnd, Lines, Terminated;
    LastCharacter(rest, LineEnd(rest));
  }

  lemma LinesUnfold(rest: Text)
    requires rest != []
    ensures Lines(rest) ==
      if LineEnd(rest) == |rest| then [rest] else [rest[..LineEnd(rest)]] + Lines(rest[LineEnd(rest) + 1..])
  {
    hide LineEnd;
  }

  lemma LastCharacter(rest: Text, k: nat)
    requires rest != [] && k <= |rest|
    requires forall i :: 0 <= i < k ==> rest[i] != NEWLINE
    requires k < |rest| ==> rest[k] == NEWLINE
    ensures k == |rest| ==> !Terminated(rest)
    ensures k < |rest| ==> (Terminated(rest[k + 1..]) <==> Terminated(rest))
  {}

  lemma TailLine(lines: seq<Text>, i: nat)
    ensures i < |lines| ==> lines[i..][0] == lines[i] && lines[i..][1..] == lines[i + 1..]
  {}

  lemma HeldGrows(s: Text, content: Text, at: nat, i: nat, line: Text)
    requires i > at ==> Terminated(s) || i < |Lines(s)|
    requires i < |Lines(s)| ==> line == Lines(s)[i]
    requires i >= |Lines(s)| && Terminated(s) ==> line == []
    requires i >= |Lines(s)| && !Terminated(s) ==> |Lines(s)| > 0 && line == Lines(s)[|Lines(s)| - 1]
    ensures Held(s, content, at, i + 1)
         == Held(s, content, at, i) + IfAny(line) + (if at == i then [content] else [])
  {
    hide Lines, Terminated, Held;
    if i < |Lines(s)| {
      HeldGrowsInside(s, content, at, i);
    } else {
      HeldGrowsPast(s, content, at, i, line);
    }
  }

  lemma HeldGrowsInside(s: Text, content: Text, at: nat, i: nat)
    requires i < |Lines(s)|
    ensures Held(s, content, at, i + 1)
         == Held(s, content, at, i) + IfAny(Lines(s)[i]) + (if at == i then [content] else [])
  {
    hide Lines, Terminated, IfAny, NonEmpty, Repeats;
    var lines := Lines(s);
    var line := lines[i];
    NonEmptyOne(line);
    assert lines[..i + 1] == lines[..i] + [line];
    NonEmptyAppend(lines[..i], [line]);
    if i > at {
      assert lines[at + 1..i + 1] == lines[at + 1..i] + [line];
      NonEmptyAppend(lines[at + 1..i], [line]);
    }
    NothingRepeated(s, i);
    NoneAfter(lines, at, i);
  }

  lemma HeldGrowsPast(s: Text, content: Text, at: nat, i: nat, line: Text)
    requires i >= |Lines(s)| && (i > at ==> Terminated(s))
    requires Terminated(s) ==> line == []
    requires !Terminated(s) ==> |Lines(s)| > 0 && line == Lines(s)[|Lines(s)| - 1]
    ensures Held(s, content, at, i + 1)
         == Held(s, content, at, i) + IfAny(line) + (if at == i then [content] else [])
  {
    hide Lines, Terminated, IfAny, NonEmpty;
    var lines := Lines(s);
    assert lines[..|lines|] == lines;
    NonEmptyOne(line);
    RepeatsGrow(s, i, line);
    EmptyLine();
  }

  lemma EmptyLine()
    ensures IfAny([]) == []
  {}

  /** Between `at` and itself there is no line. */
  lemma NoneAfter(lines: seq<Text>, at: nat, i: nat)
    ensures at < |lines| && i == at ==> NonEmpty(lines[at + 1..at + 1]) == []
  {}

  lemma NothingRepeated(s: Text, i: nat)
    requires i < |Lines(s)|
    ensures Repeats(s, i) == [] && Repeats(s, i + 1) == []
  {}

  lemma RepeatsGrow(s: Text, i: nat, line: Text)
    requires i >= |Lines(s)| && Terminated(s) ==> line == []
    requires i >= |Lines(s)| && !Terminated(s) ==> |Lines(s)| > 0 && line == Lines(s)[|Lines(s)| - 1]
    ensures i >= |Lines(s)| ==> Repeats(s, i + 1) == Repeats(s, i) + IfAny(line)
  {
    if i >= |Lines(s)| && !Terminated(s) {
      UnterminatedHasLast(s);
    }
  }

  lemma Start(s: Text, content: Text, at: nat)
    ensures After(s, 0, Open(s), []) && Held(s, content, at, 0) == []
  {}

  /** What one turn pushes. */
  function Pushed(held: seq<Text>, line: Text, here: bool, content: Text): seq<Text> {
    var read := if line != [] then held + [line] else held;
    if here then read + [content] else read
  }

  /** One turn of the loop. */
  lemma Turn(s: Text, content: Text, at: nat, i: nat, stream: Stream, line: Text, next: Stream, read: Text)
    requires After(s, i, stream, line) && (stream.Good() || i <= at)
    requires (next, read) == GetLine(stream, line)
    ensures After(s, i + 1, next, read)
    ensures Held(s, content, at, i + 1) == Pushed(Held(s, content, at, i), read, at == i, content)
    ensures stream.Good() ==> next.eof || |next.rest| < |stream.rest|
    ensures !stream.Good() && stream.eof ==> next.eof
  {
    hide Held, Lines, After, GetLine;
    AfterGetLine(s, i, stream, line);
    GoodHasMore(s, i, stream, line);
    HeldGrows(s, content, at, i, read);
    Shrinks(stream, line);
  }

  lemma Shrinks(stream: Stream, line: Text)
    ensures stream.Good() ==> GetLine(stream, line).0.eof || |GetLine(stream, line).0.rest| < |stream.rest|
    ensures !stream.Good() && stream.eof ==> GetLine(stream, line).0.eof
  {}

  lemma GoodHasMore(s: Text, i: nat, stream: Stream, line: Text)
    requires After(s, i, stream, line)
    ensures stream.Good() ==> Terminated(s) || i < |Lines(s)|
    ensures !stream.Good() ==> i >= |Lines(s)|
  {}

  lemma HeldAtEnd(s: Text, content: Text, at: nat, i: nat)
    requires i > at && i >= |Lines(s)|
    ensures Held(s, content, at, i) == Edited(s, content, at)
  {
    hide Lines, NonEmpty, Repeats;
    WholeTail(Lines(s), at);
  }

  lemma WholeTail(lines: seq<Text>, at: nat)
    ensures at < |lines| ==> lines[at + 1..|lines|] == lines[at + 1..]
  {}

  class FileHandler {
    /** The file on disk, None when there is none. */
    var contents: Option<Text>

    constructor (contents: Option<Text>)
      ensures this.contents == contents
    {
      this.contents := contents;
    }

    method WriteAtLine(content: Text, lineNum: nat) returns (ok: bool)
      modifies this
      ensures ok == old(contents).Some?
      ensures contents == if ok then Some(Written(Edited(old(contents).value, content, lineNum))) else None
    {
      if contents.None? {
        return false;
      }
      var fileContentVec := ReadAround(contents.value, content, lineNum);
      var rewritten := WriteBack(fileContentVec);
      contents := Some(rewritten);
      ok := true;
    }

    /** The reading half: getline until the stream is spent and line `lineNum` is passed. */
    method ReadAround(s: Text, content: Text, lineNum: nat) returns (fileContentVec: seq<Text>)
      ensures fileContentVec == Edited(s, content, lineNum)
    {
      hide After, Held, Edited, GetLine;
      fileContentVec := [];
      var line: Text := [];
      var stream := Open(s);
      var i := 0;
      Start(s, content, lineNum);
      while stream.Good() || i <= lineNum
        invariant After(s, i, stream, line)
        invariant fileContentVec == Held(s, content, lineNum, i)
        decreases if i <= lineNum then lineNum + 1 - i else 0, if stream.eof then 0 else 1 + |stream.rest|
      {
        var (next, read) := GetLine(stream, line);
        Turn(s, content, lineNum, i, stream, line, next, read);
        stream, line := next, read;
        if line != [] {
          fileContentVec := fileContentVec + [line];
        }
        if lineNum == i {
          fileContentVec := fileContentVec + [content];
        }
        i := i + 1;
      }
      GoodHasMore(s, i, stream, line);
      HeldAtEnd(s, content, lineNum, i);
    }

    method WriteBack(lines: seq<Text>) returns (out: Text)
      ensures out == Written(lines)
    {
      out := [];
      for j := 0 to |lines|
        invariant out + Written(lines[j..]) == Written(lines)
      {
        assert lines[j..][1..] == lines[j + 1..];
        assert out + Written(lines[j..]) == out + lines[j] + [NEWLINE] + Written(lines[j + 1..]);
        out := out + lines[j] + [NEWLINE];
      }
    }
  }

  // ----- what the editor promises -----

  /** Whatever was edited, the file now ends in a newline. */
  lemma {:induction false} WrittenTerminates(lines: seq<Text>)
    ensures Terminated(Written(lines))
  {
    if lines != [] {
      WrittenTerminates(lines[1..]);
    }
  }

  lemma {:induction false} LineEndOf(line: Text, rest: Text)
    requires NEWLINE !in line
    ensures LineEnd(line + [NEWLINE] + rest) == |line|
  {
    if line != [] {
      LineEndOf(line[1..], rest);
      assert (line + [NEWLINE] + rest)[1..] == line[1..] + [NEWLINE] + rest;
      assert (line + [NEWLINE] + rest)[0] == line[0];
    }
  }

  lemma LinesOf(line: Text, rest: Text)
    requires NEWLINE !in line
    ensures Lines(line + [NEWLINE] + rest) == [line] + Lines(rest)
  {
    LineEndOf(line, rest);
    var s := line + [NEWLINE] + rest;
    assert s[..|line|] == line && s[|line| + 1..] == rest;
  }

  /** Reading back what was written gives the lines again. */
  lemma {:induction false} LinesOfWritten(lines: seq<Text>)
    requires forall i :: 0 <= i < |lines| ==> NEWLINE !in lines[i]
    ensures Lines(Written(lines)) == lines
  {
    if lines != [] {
      LinesOf(lines[0], Written(lines[1..]));
      LinesOfWritten(lines[1..]);
    }
  }

  /** The content goes in after the non-empty lines up to number `at`; these and all later ones
      are kept, in order. This fails exactly when the file lacks its last newline and has no line
      `at`: then the last line is repeated. */
  lemma OtherLinesKept(s: Text, content: Text, at: nat)
    ensures var k := Least(at + 1, |Lines(s)|);
      Terminated(s) || at < |Lines(s)|
      <==> Edited(s, content, at) == NonEmpty(Lines(s)[..k]) + [content] + NonEmpty(Lines(s)[k..])
    ensures Terminated(s) || at < |Lines(s)| <==> |Edited(s, content, at)| == |NonEmpty(Lines(s))| + 1
  {
    hide Lines, Terminated;
    var lines := Lines(s);
    var k := Least(at + 1, |lines|);
    assert lines == lines[..k] + lines[k..];
    NonEmptyAppend(lines[..k], lines[k..]);
    if at >= |lines| {
      assert lines[..k] == lines && lines[k..] == [];
    }
  }
}
