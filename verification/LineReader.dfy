/** IPCClient.poll of the menu application: newline-delimited messages are put together again from
    whatever chunks the socket delivers. */
module LineReader {
  /** The daemon's stream is ASCII, so that every byte is a character by itself; except that a
      Swift string counts a carriage return and the newline behind it as one character. Whether
      the search for a newline finds that one is left open: joined says that it does not. */
  type Ascii = c: char | c < '\U{80}'

  datatype Read = Data(chunk: seq<Ascii>) | EndOfFile | Again | Failed

  predicate Breaks(s: seq<Ascii>, i: nat, joined: bool)
    requires i < |s|
  {
    s[i] == '\n' && !(joined && i > 0 && s[i - 1] == '\r')
  }

  function BreakFrom(s: seq<Ascii>, i: nat, joined: bool): (k: nat)
    requires i <= |s|
    ensures i <= k <= |s|
    ensures forall j :: i <= j < k ==> !Breaks(s, j, joined)
    ensures k < |s| ==> Breaks(s, k, joined)
    decreases |s| - i
  {
    if i == |s| || Breaks(s, i, joined) then i else BreakFrom(s, i + 1, joined)
  }

  /** The first newline that is found, or the length if there is none. */
  function LineEnd(s: seq<Ascii>, joined: bool): (i: nat)
    ensures i <= |s|
    ensures forall j :: 0 <= j < i ==> !Breaks(s, j, joined)
    ensures i < |s| ==> Breaks(s, i, joined)
  {
    BreakFrom(s, 0, joined)
  }

  /** The complete lines of a stream. */
  function Lines(s: seq<Ascii>, joined: bool): seq<seq<Ascii>> {
    var i := LineEnd(s, joined);
    if i == |s| then [] else [s[..i]] + Lines(s[i + 1..], joined)
  }

  /** What follows the last of them. */
  function Rest(s: seq<Ascii>, joined: bool): (r: seq<Ascii>)
    ensures Unbroken(r, joined)
  {
    var i := LineEnd(s, joined);
    if i == |s| then s else Rest(s[i + 1..], joined)
  }

  predicate Unbroken(s: seq<Ascii>, joined: bool) {
    forall j :: 0 <= j < |s| ==> !Breaks(s, j, joined)
  }

  /** A newline behind the text ends it, and none within it does. */
  predicate IsLine(s: seq<Ascii>, joined: bool) {
    Unbroken(s, joined) && !(joined && s != [] && s[|s| - 1] == '\r')
  }

  function Join(lines: seq<seq<Ascii>>): seq<Ascii> {
    if lines == [] then [] else lines[0] + ['\n'] + Join(lines[1..])
  }

  lemma LineEndIs(s: seq<Ascii>, i: nat, joined: bool)
    requires i < |s| && Breaks(s, i, joined) && forall j :: 0 <= j < i ==> !Breaks(s, j, joined)
    ensures LineEnd(s, joined) == i
  {
  }

  lemma FirstLine(line: seq<Ascii>, tail: seq<Ascii>, joined: bool)
    requires IsLine(line, joined)
    ensures Lines(line + ['\n'] + tail, joined) == [line] + Lines(tail, joined)
    ensures Rest(line + ['\n'] + tail, joined) == Rest(tail, joined)
  {
    hide LineEnd;
    var s := line + ['\n'] + tail;
    assert forall j :: 0 <= j < |line| ==> (Breaks(s, j, joined) <==> Breaks(line, j, joined));
    LineEndIs(s, |line|, joined);
    assert s[..|line|] == line && s[|line| + 1..] == tail;
  }

  lemma Cut(s: seq<Ascii>, joined: bool) returns (line: seq<Ascii>, tail: seq<Ascii>)
    requires !Unbroken(s, joined)
    ensures IsLine(line, joined) && s == line + ['\n'] + tail
  {
    var i := LineEnd(s, joined);
    line, tail := s[..i], s[i + 1..];
    assert forall j :: 0 <= j < i ==> (Breaks(s, j, joined) <==> Breaks(line, j, joined));
  }

  lemma NoLine(s: seq<Ascii>, joined: bool)
    requires Unbroken(s, joined)
    ensures Lines(s, joined) == [] && Rest(s, joined) == s
  {
  }

  lemma FirstOfBuffer(s: seq<Ascii>, joined: bool)
    ensures
      var i := LineEnd(s, joined);
      if i < |s| then
        Lines(s, joined) == [s[..i]] + Lines(s[i + 1..], joined) && Rest(s, joined) == Rest(s[i + 1..], joined)
      else
        Lines(s, joined) == [] && Rest(s, joined) == s
  {
  }

  lemma JoinNone()
    ensures Join([]) == []
  {
  }

  lemma JoinCons(line: seq<Ascii>, lines: seq<seq<Ascii>>)
    ensures Join([line] + lines) == line + ['\n'] + Join(lines)
  {
  }

  /** Nothing is lost: the lines and the rest, with a newline after each line, are the stream;
      and no line contains a newline that would be found. */
  lemma {:induction false} LinesCover(s: seq<Ascii>, joined: bool)
    ensures Join(Lines(s, joined)) + Rest(s, joined) == s
    ensures forall l :: l in Lines(s, joined) ==> IsLine(l, joined)
    decreases |s|
  {
    hide Lines, Rest, Join, Unbroken;
    if Unbroken(s, joined) {
      NoLine(s, joined);
      JoinNone();
    } else {
      var line, tail := Cut(s, joined);
      LinesCover(tail, joined);
      FirstLine(line, tail, joined);
      JoinCons(line, Lines(tail, joined));
    }
  }

  /** And nothing else is: any such lines and rest are read back. */
  lemma {:induction false} LinesOfJoin(lines: seq<seq<Ascii>>, rest: seq<Ascii>, joined: bool)
    requires Unbroken(rest, joined) && forall l :: l in lines ==> IsLine(l, joined)
    ensures Lines(Join(lines) + rest, joined) == lines && Rest(Join(lines) + rest, joined) == rest
  {
    hide Lines, Rest, Join, Unbroken, IsLine;
    if lines == [] {
      JoinNone();
      assert Join(lines) + rest == rest;
      NoLine(rest, joined);
    } else {
      var head, tail := lines[0], Join(lines[1..]) + rest;
      assert lines == [head] + lines[1..];
      JoinCons(head, lines[1..]);
      assert Join(lines) + rest == head + ['\n'] + tail;
      LinesOfJoin(lines[1..], rest, joined);
      FirstLine(head, tail, joined);
    }
  }

  /** Reading on from the remainder is reading the whole stream, wherever it is cut. */
  lemma {:induction false} LinesConcat(a: seq<Ascii>, b: seq<Ascii>, joined: bool)
    ensures Lines(a + b, joined) == Lines(a, joined) + Lines(Rest(a, joined) + b, joined)
    ensures Rest(a + b, joined) == Rest(Rest(a, joined) + b, joined)
    decreases |a|
  {
    hide Lines, Rest, Unbroken;
    if Unbroken(a, joined) {
      NoLine(a, joined);
    } else {
      var line, tail := Cut(a, joined);
      LinesConcat(tail, b, joined);
      FirstLine(line, tail, joined);
      assert a + b == line + ['\n'] + (tail + b);
      FirstLine(line, tail + b, joined);
    }
  }

  /** Where the search tells a newline behind a carriage return apart, that one does not end a line;
      otherwise it does, and the carriage return is the line's last character. */
  lemma ReturnThenNewline(text: seq<Ascii>)
    requires '\n' !in text
    ensures Lines(text + ['\r', '\n'], true) == [] && Rest(text + ['\r', '\n'], true) == text + ['\r', '\n']
    ensures Lines(text + ['\r', '\n'], false) == [text + ['\r']] && Rest(text + ['\r', '\n'], false) == []
  {
    var line, none: seq<Ascii> := text + ['\r'], [];
    assert text + ['\r', '\n'] == line + ['\n'] + none;
    FirstLine(line, none, false);
    NoLine(none, false);
    NoLine(text + ['\r', '\n'], true);
  }

  lemma PlainUnbroken(s: seq<Ascii>)
    requires '\r' !in s && Unbroken(s, true)
    ensures Unbroken(s, false) && '\n' !in s
  {
    assert forall j :: 0 <= j < |s| && s[j] == '\n' ==> Breaks(s, j, true);
  }

  /** A stream without carriage returns is cut at every newline, whatever the search does. */
  lemma {:induction false} NoReturns(s: seq<Ascii>)
    requires '\r' !in s
    ensures Lines(s, true) == Lines(s, false) && Rest(s, true) == Rest(s, false)
    ensures forall l :: l in Lines(s, true) ==> '\n' !in l
    ensures '\n' !in Rest(s, true)
    decreases |s|
  {
    hide Lines, Rest, LineEnd;
    if Unbroken(s, true) {
      PlainUnbroken(s);
      NoLine(s, true);
      NoLine(s, false);
    } else {
      var line, tail := Cut(s, true);
      NoReturns(tail);
      PlainUnbroken(line);
      FirstLine(line, tail, true);
      FirstLine(line, tail, false);
    }
  }

  class IPCClient {
    const joined: bool
    var connected: bool
    var readBuffer: seq<Ascii>
    var eofCount: nat
    var eagainCount: nat

    /** Connecting starts from an empty buffer. The end-of-file count is left as it was. */
    method Connect()
      modifies this
      ensures connected && readBuffer == [] && eagainCount == 0 && eofCount == old(eofCount)
    {
      connected := true;
      readBuffer := [];
      eagainCount := 0;
    }

    method Disconnect()
      modifies this`connected, this`readBuffer
      ensures !connected && readBuffer == []
    {
      connected := false;
      readBuffer := [];
    }

    /** The inner loop: cut off one complete line after another. */
    method TakeLines() returns (lines: seq<seq<Ascii>>)
      modifies this`readBuffer
      ensures lines == Lines(old(readBuffer), joined) && readBuffer == Rest(old(readBuffer), joined)
    {
      hide Lines, Rest, LineEnd;
      lines := [];
      ghost var all := readBuffer;
      var i := LineEnd(readBuffer, joined);
      while i < |readBuffer|
        invariant i == LineEnd(readBuffer, joined)
        invariant Lines(all, joined) == lines + Lines(readBuffer, joined)
        invariant Rest(all, joined) == Rest(readBuffer, joined)
        decreases |readBuffer|
      {
        FirstOfBuffer(readBuffer, joined);
        lines := lines + [readBuffer[..i]];
        readBuffer := readBuffer[i + 1..];
        i := LineEnd(readBuffer, joined);
      }
      FirstOfBuffer(readBuffer, joined);
    }

    /** poll, for one outcome of read. lines are the complete lines it goes through. */
    method Poll(r: Read) returns (lines: seq<seq<Ascii>>)
      modifies this
      ensures !old(connected) ==> lines == [] && !connected && readBuffer == old(readBuffer)
      ensures !old(connected) ==> eofCount == old(eofCount) && eagainCount == old(eagainCount)
      ensures old(connected) ==>
        match r
        case Data(chunk) =>
          && connected && eofCount == 0 && eagainCount == 0
          && lines == Lines(old(readBuffer) + chunk, joined) && readBuffer == Rest(old(readBuffer) + chunk, joined)
        case EndOfFile =>
          && lines == [] && eofCount == old(eofCount) + 1 && eagainCount == old(eagainCount)
          && connected == (eofCount < 3) && readBuffer == (if connected then old(readBuffer) else [])
        case Again =>
          && lines == [] && connected && readBuffer == old(readBuffer)
          && eofCount == old(eofCount) && eagainCount == old(eagainCount) + 1
        case Failed =>
          && lines == [] && !connected && readBuffer == []
          && eofCount == old(eofCount) && eagainCount == old(eagainCount)
    {
      lines := [];
      if !connected {
        return;
      }
      match r
      case Data(chunk) =>
        eagainCount := 0;
        eofCount := 0;
        readBuffer := readBuffer + chunk;
        lines := TakeLines();
      case EndOfFile =>
        eofCount := eofCount + 1;
        if eofCount >= 3 {
          Disconnect();
        }
      case Again =>
        eagainCount := eagainCount + 1;
      case Failed =>
        Disconnect();
    }

    /** However the stream is cut into chunks, and whatever else the reads find in between, the
        polls of a connection go through exactly the complete lines of what was read in order;
        and while the connection lasts, the buffer keeps the unterminated rest. */
    method PollAll(got: seq<Read>) returns (lines: seq<seq<Ascii>>)
      requires connected && readBuffer == []
      modifies this
      ensures lines == Lines(Stream(got, old(eofCount)), joined)
      ensures connected == Lasts(got, old(eofCount))
      ensures readBuffer == if connected then Rest(Stream(got, old(eofCount)), joined) else []
    {
      hide Lines, Rest;
      lines := [];
      ghost var eof := eofCount;
      NothingRead(eof, joined);
      assert got[..0] == [];
      for i := 0 to |got|
        invariant lines == Lines(Stream(got[..i], eof), joined)
        invariant connected == Lasts(got[..i], eof) && (connected ==> eofCount == EofsAfter(got[..i], eof))
        invariant readBuffer == if connected then Rest(Stream(got[..i], eof), joined) else []
      {
        ReadStep(got, i, eof, joined);
        var more := Poll(got[i]);
        lines := lines + more;
      }
      assert got[..|got|] == got;
    }
  }

  /** How many end-of-file reads in a row the connection has seen, eof of them before. */
  function EofsAfter(got: seq<Read>, eof: nat): nat {
    if got == [] then eof
    else
      var before := EofsAfter(got[..|got| - 1], eof);
      match got[|got| - 1]
      case Data(_) => 0
      case EndOfFile => before + 1
      case _ => before
  }

  /** The connection outlives the reads: none fails, and none is an end of file that makes three. */
  predicate Lasts(got: seq<Read>, eof: nat) {
    got == []
    || (Lasts(got[..|got| - 1], eof)
        && got[|got| - 1] != Failed
        && (got[|got| - 1] == EndOfFile ==> EofsAfter(got, eof) < 3))
  }

  /** Everything that is read while the connection lasts. */
  function Stream(got: seq<Read>, eof: nat): seq<Ascii> {
    if got == [] then []
    else
      var before, last := Stream(got[..|got| - 1], eof), got[|got| - 1];
      if last.Data? && Lasts(got[..|got| - 1], eof) then before + last.chunk else before
  }

  lemma NothingRead(eof: nat, joined: bool)
    ensures Stream([], eof) == [] && Lines([], joined) == [] && Rest([], joined) == []
    ensures Lasts([], eof) && EofsAfter([], eof) == eof
  {
  }

  /** One more read. */
  lemma ReadStep(got: seq<Read>, i: nat, eof: nat, joined: bool)
    requires i < |got|
    ensures
      var before, after := got[..i], got[..i + 1];
      var was, now, r := Stream(before, eof), Stream(after, eof), got[i];
      && (Lasts(after, eof) <==>
            Lasts(before, eof) && r != Failed && (r == EndOfFile ==> EofsAfter(after, eof) < 3))
      && EofsAfter(after, eof) == (if r.Data? then 0 else EofsAfter(before, eof) + if r == EndOfFile then 1 else 0)
      && (if r.Data? && Lasts(before, eof) then
            && now == was + r.chunk
            && Lines(now, joined) == Lines(was, joined) + Lines(Rest(was, joined) + r.chunk, joined)
            && Rest(now, joined) == Rest(Rest(was, joined) + r.chunk, joined)
          else now == was)
  {
    hide Lines, Rest;
    assert got[..i + 1][..i] == got[..i];
    if got[i].Data? && Lasts(got[..i], eof) {
      LinesConcat(Stream(got[..i], eof), got[i].chunk, joined);
    }
  }
}
