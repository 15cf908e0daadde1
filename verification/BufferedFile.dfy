/** Buffered reading and writing of a socket whose reads and writes may split the data at will. */
module BufferedFile {
  import opened Common

  /** How the incoming data ends. */
  datatype Ending = Closed | Broken

  /** What a write call does: take some of the data, or fail. */
  datatype Accept = Take(n: nat) | Refuse

  datatype Error = NoError | ReadError | WriteError | LineOverrun | TextTooLong

  // ------------------------------------------------------------------------------------
  // Meaning of the operations on an unsplit stream

  /** The incoming side as its readers see it. */
  datatype Source = Failed | Ended | Live(stream: string)

  function Past(ending: Ending): Source {
    if ending == Closed then Ended else Failed
  }

  ghost predicate NoNewline(s: string) {
    forall i :: 0 <= i < |s| ==> s[i] != '\n'
  }

  /** The position of the first newline, or the length if there is none. */
  function LineLength(s: string): (n: nat)
    ensures n <= |s|
    ensures forall i :: 0 <= i < n ==> s[i] != '\n'
    ensures n < |s| ==> s[n] == '\n'
  {
    if s == "" || s[0] == '\n' then 0 else 1 + LineLength(s[1..])
  }

  lemma {:induction false} LineLengthMost(s: string, n: nat)
    requires n <= |s| && NoNewline(s[..n])
    ensures n <= LineLength(s)
  {
    if n > 0 {
      assert s[..n][0] == s[0];
      assert s[1..][..n - 1] == s[..n][1..];
      LineLengthMost(s[1..], n - 1);
    }
  }

  lemma LineLengthIs(s: string, n: nat)
    requires n <= |s| && NoNewline(s[..n])
    requires n < |s| ==> s[n] == '\n'
    ensures LineLength(s) == n
  {
    hide LineLength;
    LineLengthMost(s, n);
  }

  /** Reading a line: the line and what is left, or why there is none. */
  function TakeLine(s: Source, ending: Ending, size: nat): (Source, Option<string>) {
    if !s.Live? then (s, None)
    else
      var n := LineLength(s.stream);
      if n + 1 >= size then (Failed, None)
      else if n < |s.stream| then (Live(s.stream[n + 1..]), Some(s.stream[..n]))
      else (Past(ending), None)
  }

  function TakeBlock(s: Source, ending: Ending, n: nat): (Source, Option<string>) {
    if !s.Live? then (s, None)
    else if n <= |s.stream| then (Live(s.stream[n..]), Some(s.stream[..n]))
    else (Past(ending), None)
  }

  /** What reading a line finds in data that ends in the given way.  A line is found exactly if
      the data begins with it and a newline, and it leaves room in the buffer; a first line that
      leaves no room is an error; and without a newline, and with room, the data ends. */
  lemma LineExact(data: string, ending: Ending, size: nat)
    ensures var (after, found) := TakeLine(Live(data), ending, size);
            && (forall line :: found == Some(line) <==>
                  |line| + 1 < size && NoNewline(line) && line + "\n" <= data)
            && (forall line :: found == Some(line) ==> after == Live(data[|line| + 1..]))
            && (after.Live? <==> found.Some?)
            && (after.Ended? <==> ending == Closed && NoNewline(data) && |data| + 1 < size)
  {
    hide NoNewline, LineLength;
    var n := LineLength(data);
    var (after, found) := TakeLine(Live(data), ending, size);
    NoNewlineBefore(data);
    forall line ensures found == Some(line) <==> |line| + 1 < size && NoNewline(line) && line + "\n" <= data {
      if |line| + 1 < size && NoNewline(line) && line + "\n" <= data {
        assert data == line + "\n" + data[|line| + 1..];
        FirstLine(line, data[|line| + 1..], ending, size);
      }
      if found == Some(line) {
        assert data[..n + 1] == line + "\n";
      }
    }
  }

  lemma NoNewlineBefore(data: string)
    ensures NoNewline(data[..LineLength(data)]) && (NoNewline(data) ==> LineLength(data) == |data|)
    ensures LineLength(data) == |data| ==> NoNewline(data)
  {
    if NoNewline(data) {
      assert data[..|data|] == data;
      LineLengthIs(data, |data|);
    }
  }

  /** A block is found exactly if there is as much data, and data that ends before is lost. */
  lemma BlockExact(data: string, ending: Ending, n: nat)
    ensures var (after, found) := TakeBlock(Live(data), ending, n);
            && (forall block :: found == Some(block) <==> |block| == n && block <= data)
            && (forall block :: found == Some(block) ==> after == Live(data[n..]))
            && (after.Live? <==> found.Some?)
            && (after.Ended? <==> ending == Closed && |data| < n)
  {
    forall block: string | |block| == n && block <= data ensures block == data[..n] {
      assert data[..n] == data[..|block|] == block;
    }
  }

  function JoinLines(lines: seq<string>): string {
    if lines == [] then "" else lines[0] + "\n" + JoinLines(lines[1..])
  }

  function TakeLines(s: Source, ending: Ending, size: nat, n: nat): (Source, seq<Option<string>>)
    decreases n
  {
    if n == 0 then (s, [])
    else
      var (t, line) := TakeLine(s, ending, size);
      var (u, lines) := TakeLines(t, ending, size, n - 1);
      (u, [line] + lines)
  }

  lemma FirstLine(l: string, rest: string, ending: Ending, size: nat)
    requires NoNewline(l) && |l| + 1 < size
    ensures TakeLine(Live(l + "\n" + rest), ending, size) == (Live(rest), Some(l))
  {
    var s := l + "\n" + rest;
    assert s[..|l|] == l;
    LineLengthIs(s, |l|);
    assert s[|l| + 1..] == rest;
  }

  lemma TakeOneMore(s: Source, ending: Ending, size: nat, n: nat)
    requires n > 0
    ensures var (t, line) := TakeLine(s, ending, size);
            TakeLines(s, ending, size, n) ==
            (TakeLines(t, ending, size, n - 1).0, [line] + TakeLines(t, ending, size, n - 1).1)
  {
  }

  /** Lines that fit come back one by one from their newline terminated text. */
  lemma {:induction false} LinesRoundTrip(lines: seq<string>, tail: string, ending: Ending, size: nat)
    requires forall i :: 0 <= i < |lines| ==> NoNewline(lines[i]) && |lines[i]| + 1 < size
    ensures TakeLines(Live(JoinLines(lines) + tail), ending, size, |lines|) ==
            (Live(tail), seq(|lines|, i requires 0 <= i < |lines| => Some(lines[i])))
  {
    hide TakeLine, NoNewline;
    if lines == [] {
      assert "" + tail == tail;
    } else {
      var rest := JoinLines(lines[1..]) + tail;
      assert JoinLines(lines) + tail == lines[0] + "\n" + rest;
      FirstLine(lines[0], rest, ending, size);
      LinesRoundTrip(lines[1..], tail, ending, size);
      TakeOneMore(Live(JoinLines(lines) + tail), ending, size, |lines|);
      var back := seq(|lines|, i requires 0 <= i < |lines| => Some(lines[i]));
      assert back == [Some(lines[0])] + seq(|lines[1..]|, i requires 0 <= i < |lines[1..]| => Some(lines[1..][i]));
    }
  }

  // ------------------------------------------------------------------------------------
  // The socket

  class Socket {
    const ending: Ending
    /** How much each read gives and what each write takes; these may be anything. */
    const split: nat -> nat
    const accept: nat -> Accept
    var input: string
    var sent: string
    var readCount: nat
    var writeCount: nat

    constructor (input: string, ending: Ending, split: nat -> nat, accept: nat -> Accept)
      ensures this.input == input && this.ending == ending && sent == ""
    {
      this.input, this.ending, this.split, this.accept := input, ending, split, accept;
      sent, readCount, writeCount := "", 0, 0;
    }

    /** Gives at least one character while there are any. */
    method Read(buf: array<char>) returns (seen: int)
      requires buf.Length > 0
      modifies this`input, this`readCount, buf
      ensures old(input) != "" ==> 0 < seen <= buf.Length && seen <= |old(input)|
      ensures old(input) != "" ==> buf[..seen] == old(input)[..seen] && input == old(input)[seen..]
      ensures old(input) == "" ==> input == "" && seen == if ending == Closed then 0 else -1
    {
      if input == "" {
        seen := if ending == Closed then 0 else -1;
      } else {
        seen := Clamp(split(readCount), if |input| < buf.Length then |input| else buf.Length);
        forall i | 0 <= i < seen {
          buf[i] := input[i];
        }
        input := input[seen..];
      }
      readCount := readCount + 1;
    }

    /** No write call of the given numbers is refused. */
    ghost predicate Taken(from: nat, to: nat) {
      forall k :: from <= k < to ==> accept(k).Take?
    }

    /** Takes at least one character, or fails, as the environment has it. */
    method Write(data: string) returns (written: int)
      requires data != ""
      modifies this`sent, this`writeCount
      ensures written == -1 || 0 < written <= |data|
      ensures written == -1 <==> accept(old(writeCount)).Refuse?
      ensures writeCount == old(writeCount) + 1
      ensures written == -1 ==> sent == old(sent)
      ensures written > 0 ==> sent == old(sent) + data[..written]
    {
      match accept(writeCount) {
        case Refuse =>
          written := -1;
        case Take(n) =>
          written := Clamp(n, |data|);
          sent := sent + data[..written];
      }
      writeCount := writeCount + 1;
    }
  }

  function Clamp(n: nat, most: nat): (k: nat)
    requires most > 0
    ensures 0 < k <= most
  {
    if n == 0 then 1 else if n < most then n else most
  }

  // ------------------------------------------------------------------------------------
  // The file

  class File {
    const sock: Socket
    const inBuf: array<char>
    const outBuf: array<char>
    var eof: bool
    var error: Error
    var inLength: nat
    var readPtr: nat
    var outLength: nat
    /** Everything accepted for output. */
    ghost var written: string

    ghost predicate Valid()
      reads this, sock, inBuf, outBuf
    {
      && inBuf != outBuf && inBuf.Length > 0 && outBuf.Length > 0
      && (error == NoError ==> readPtr <= inLength <= inBuf.Length)
      && OutputExact()
      && (error == NoError ==> outLength < outBuf.Length)
    }

    /** What was sent, followed by what is buffered, is what was written. */
    ghost predicate OutputExact()
      reads this, sock, outBuf
    {
      && sock.sent <= written
      && (error == NoError ==> outLength <= outBuf.Length && written == sock.sent + outBuf[..outLength])
    }

    ghost function Source(): Source
      reads this, sock, inBuf
      requires error == NoError ==> readPtr <= inLength <= inBuf.Length
    {
      if error != NoError then Failed
      else if eof then Ended
      else Live(inBuf[readPtr..inLength] + sock.input)
    }

    constructor (sock: Socket, inSize: nat, outSize: nat)
      requires inSize > 0 && outSize > 0
      ensures Valid() && this.sock == sock && Source() == Live(sock.input) && written == sock.sent
      ensures fresh(inBuf) && fresh(outBuf)
    {
      this.sock := sock;
      inBuf := new char[inSize];
      outBuf := new char[outSize];
      eof, error, inLength, readPtr, outLength := false, NoError, 0, 0, 0;
      written := sock.sent;
      new;
      assert inBuf[0..0] + sock.input == sock.input;
    }

    // Output

    /** The error a writer leaves when it found was and made the write calls from the given
        number on: a write error if and only if one of them was refused. */
    ghost predicate WritesDecide(was: Error, from: nat)
      reads `error, sock`writeCount
    {
      && from <= sock.writeCount
      && error == if was != NoError then was
                  else if sock.Taken(from, sock.writeCount) then NoError
                  else WriteError
    }

    /** Sends all of the data unless a write fails. */
    method SendEntireBuffer(data: string)
      modifies this`error, sock`sent, sock`writeCount
      ensures old(error) != NoError ==> error == old(error) && sock.sent == old(sock.sent)
      ensures error == NoError ==> sock.sent == old(sock.sent) + data
      ensures error == old(error) || error == WriteError
      ensures WritesDecide(old(error), old(sock.writeCount))
      ensures old(sock.sent) <= sock.sent <= old(sock.sent) + data
    {
      var done: nat := 0;
      while error == NoError && done < |data|
        invariant done <= |data|
        invariant error == old(error) || error == WriteError
        invariant WritesDecide(old(error), old(sock.writeCount))
        invariant old(error) != NoError ==> done == 0 && error == old(error)
        invariant sock.sent == old(sock.sent) + data[..done]
        decreases |data| - done, if error == NoError then 1 else 0
      {
        var n := sock.Write(data[done..]);
        if n < 0 {
          error := WriteError;
        } else {
          assert data[..done] + data[done..][..n] == data[..done + n];
          done := done + n;
        }
      }
      assert data[..|data|] == data;
      PrefixOfSum(old(sock.sent), data, done);
    }

    /** Empties the output buffer. */
    method FlushOutBuf() returns (ok: bool)
      requires OutputExact() && outBuf.Length > 0 && (error == NoError ==> outLength <= outBuf.Length)
      modifies this`error, this`outLength, sock`sent, sock`writeCount
      ensures OutputExact() && outLength == 0
      ensures ok <==> error == NoError
      ensures error == old(error) || error == WriteError
      ensures WritesDecide(old(error), old(sock.writeCount))
      ensures old(sock.sent) <= sock.sent
      ensures ok ==> old(error) == NoError && sock.sent == written
    {
      if error == NoError {
        SendEntireBuffer(outBuf[..outLength]);
      }
      outLength := 0;
      ok := error == NoError;
      assert ok ==> sock.sent + outBuf[..0] == sock.sent;
    }

    /** Puts as much as fits into the buffer and flushes it when it is full, until all is in. */
    method WriteString(text: string) returns (ok: bool)
      requires Valid()
      modifies this`error, this`outLength, this`written, sock`sent, sock`writeCount, outBuf
      ensures Valid()
      ensures ok <==> error == NoError
      ensures error == old(error) || error == WriteError
      ensures WritesDecide(old(error), old(sock.writeCount))
      ensures ok ==> written == old(written) + text
      ensures old(sock.sent) <= sock.sent && written <= old(written) + text
    {
      var done: nat := 0;
      while error == NoError && done < |text|
        invariant done <= |text|
        invariant error == old(error) || error == WriteError
        invariant WritesDecide(old(error), old(sock.writeCount))
        invariant old(error) != NoError ==> error != NoError
        invariant Valid()
        invariant written == old(written) + text[..done]
        invariant old(sock.sent) <= sock.sent
        decreases |text| - done, if error == NoError then 1 else 0
      {
        var n := if outBuf.Length - outLength < |text| - done then outBuf.Length - outLength else |text| - done;
        Append(text[done..done + n]);
        assert text[..done] + text[done..done + n] == text[..done + n];
        done := done + n;
        if outLength >= outBuf.Length {
          var _ := FlushOutBuf();
        }
      }
      assert text[..|text|] == text;
      PrefixOfSum(old(written), text, done);
      ok := error == NoError;
    }

    method Append(text: string)
      requires OutputExact() && error == NoError && outLength + |text| <= outBuf.Length && inBuf != outBuf
      modifies this`outLength, this`written, outBuf
      ensures OutputExact() && outLength == old(outLength) + |text|
      ensures written == old(written) + text
    {
      ghost var was := outBuf[..outLength];
      forall i | 0 <= i < |text| {
        outBuf[outLength + i] := text[i];
      }
      outLength := outLength + |text|;
      written := written + text;
      assert outBuf[..outLength] == was + text;
    }

    /** A formatted text goes out whole or is refused for not fitting an empty buffer. */
    method WriteFormattedString(text: string) returns (ok: bool)
      requires Valid()
      modifies this`error, this`outLength, this`written, sock`sent, sock`writeCount, outBuf
      ensures Valid()
      ensures ok <==> error == NoError
      ensures ok ==> written == old(written) + text
      ensures !ok ==> written == old(written)
      ensures old(error) == NoError && |text| >= outBuf.Length ==> !ok
      ensures error == TextTooLong && old(error) == NoError ==> |text| >= outBuf.Length
      ensures old(sock.writeCount) <= sock.writeCount
      ensures error == if old(error) != NoError then old(error)
                       else if !sock.Taken(old(sock.writeCount), sock.writeCount) then WriteError
                       else if |text| >= outBuf.Length then TextTooLong
                       else NoError
      ensures old(sock.sent) <= sock.sent
    {
      if error != NoError {
        return false;
      }
      if |text| < outBuf.Length - outLength {
        Append(text);
      } else {
        var flushed := FlushOutBuf();
        if flushed {
          if |text| < outBuf.Length {
            Append(text);
          } else {
            outLength := |text|;
            error := TextTooLong;
          }
        }
      }
      ok := error == NoError;
    }

    /** Large blocks go past the buffer, after what it holds. */
    method WriteBlock(block: string) returns (ok: bool)
      requires Valid()
      modifies this`error, this`outLength, this`written, sock`sent, sock`writeCount
      ensures Valid()
      ensures ok <==> error == NoError
      ensures error == old(error) || error == WriteError
      ensures WritesDecide(old(error), old(sock.writeCount))
      ensures ok ==> written == old(written) + block && sock.sent == written
      ensures old(sock.sent) <= sock.sent && written <= old(written) + block
    {
      var flushed := FlushOutBuf();
      ghost var before := sock.sent;
      SendEntireBuffer(block);
      if flushed {
        written := written + block;
        assert error == NoError ==> sock.sent + outBuf[..0] == sock.sent;
      }
      ok := error == NoError;
    }

    /** There is always room for one more character. */
    method WriteChar(ch: char) returns (ok: bool)
      requires Valid()
      modifies this`error, this`outLength, this`written, sock`sent, sock`writeCount, outBuf
      ensures Valid()
      ensures ok <==> error == NoError
      ensures error == old(error) || error == WriteError
      ensures WritesDecide(old(error), old(sock.writeCount))
      ensures ok ==> written == old(written) + [ch]
      ensures old(sock.sent) <= sock.sent && written <= old(written) + [ch]
    {
      if error == NoError {
        Append([ch]);
        if outLength >= outBuf.Length {
          var _ := FlushOutBuf();
        }
      }
      ok := error == NoError;
    }

    // Input

    /** Refills the input buffer once all of it has been used. */
    method FillInBuf()
      requires inBuf != outBuf && inBuf.Length > 0
      modifies this`error, this`eof, this`readPtr, this`inLength, sock`input, sock`readCount, inBuf
      ensures old(eof || error != NoError) ==>
                eof == old(eof) && error == old(error) && sock.input == old(sock.input)
                && readPtr == old(readPtr) && inLength == old(inLength)
      ensures !old(eof || error != NoError) && old(sock.input) != "" ==>
                && error == NoError && !eof && readPtr == 0 && 0 < inLength <= inBuf.Length
                && old(sock.input) == inBuf[..inLength] + sock.input
      ensures !old(eof || error != NoError) && old(sock.input) == "" ==>
                && sock.input == "" && readPtr == 0
                && if sock.ending == Closed then eof && error == NoError && inLength == 0
                   else !eof && error == ReadError
    {
      if !eof && error == NoError {
        var seen := sock.Read(inBuf);
        if seen < 0 {
          error := ReadError;
        }
        eof := seen == 0;
        readPtr := 0;
        inLength := if seen >= 0 then seen else 0x1_0000_0000_0000_0000 - 1;
      }
    }

    /** The first newline in the part of the input buffer not read yet. */
    method FindNewline() returns (n: nat)
      requires readPtr <= inLength <= inBuf.Length
      ensures readPtr + n <= inLength
      ensures NoNewline(inBuf[readPtr..inLength][..n])
      ensures readPtr + n < inLength ==> inBuf[readPtr..inLength][n] == '\n'
    {
      n := 0;
      while readPtr + n < inLength && inBuf[readPtr + n] != '\n'
        invariant readPtr + n <= inLength
        invariant forall k :: readPtr <= k < readPtr + n ==> inBuf[k] != '\n'
      {
        n := n + 1;
      }
    }

    /** Moves the next n characters of the input buffer to the destination. */
    method CopyOut(dest: array<char>, at: nat, n: nat)
      requires dest != inBuf && at + n <= dest.Length && readPtr + n <= inLength <= inBuf.Length
      modifies dest
      ensures dest[..at + n] == old(dest[..at]) + inBuf[readPtr..inLength][..n]
    {
      forall i | 0 <= i < n {
        dest[at + i] := inBuf[readPtr + i];
      }
    }

    method Overrun()
      requires Valid() && error == NoError
      modifies this`error
      ensures Valid() && error == LineOverrun && Source() == Failed
    {
      error := LineOverrun;
    }

    method Skip(n: nat)
      requires Valid() && error == NoError && !eof && readPtr + n <= inLength
      modifies this`readPtr
      ensures Valid() && readPtr == old(readPtr) + n
      ensures Source() == Live(inBuf[old(readPtr)..inLength][n..] + sock.input)
    {
      readPtr := readPtr + n;
    }

    /** Flushes the output if asked to and refills the used up input buffer. */
    method MoreInput(flush: bool)
      requires Valid() && !eof && error == NoError
      modifies this`error, this`eof, this`readPtr, this`inLength, this`outLength, inBuf,
               sock`input, sock`readCount, sock`sent, sock`writeCount
      ensures Valid()
      ensures error == WriteError ==> flush
      ensures error != WriteError && old(sock.input) != "" ==>
                error == NoError && !eof && Source() == Live(old(sock.input)) && |sock.input| < |old(sock.input)|
      ensures error != WriteError && old(sock.input) == "" ==>
                (eof || error != NoError) && Source() == Past(sock.ending)
      ensures !flush ==> sock.sent == old(sock.sent)
      ensures old(sock.writeCount) <= sock.writeCount
      ensures error == WriteError <==> !sock.Taken(old(sock.writeCount), sock.writeCount)
      ensures flush && error != WriteError ==> sock.sent == written
    {
      if flush {
        var _ := FlushOutBuf();
      }
      ghost var sent := sock.sent + outBuf[..outLength];
      FillInBuf();
      assert error == NoError ==> written == sent;
      assert error == NoError && !eof ==> inBuf[0..inLength] == inBuf[..inLength];
    }

    /** Looks for the rest of a line in the input buffer, of which done was found before. */
    method LineFromBuffer(line: array<char>, at: nat, ghost done: string) returns (found: Found, ghost done': string)
      requires Valid() && line != inBuf && line != outBuf && !eof && error == NoError
      requires at == |done| <= line.Length && line[..at] == done && NoNewline(done)
      modifies this`error, this`readPtr, line
      ensures Valid() && !eof
      ensures var whole := done + old(Source()).stream;
              match found
              case Line(n) =>
                && error == NoError && n < line.Length && line[n] == '\0'
                && TakeLine(Live(whole), sock.ending, line.Length) == (Source(), Some(line[..n]))
              case Overran =>
                error == LineOverrun && TakeLine(Live(whole), sock.ending, line.Length) == (Failed, None)
              case More(n) =>
                && error == NoError && n == |done'| && n + 1 < line.Length
                && line[..n] == done' && NoNewline(done') && whole == done' + sock.input
    {
      hide LineLength, TakeLine, NoNewline, File.OutputExact;
      ghost var b := inBuf[readPtr..inLength];
      ghost var whole := done + (b + sock.input);
      var n := FindNewline();
      LineFacts(done, b, sock.input, n);
      done' := done + b[..n];
      found := More(at + n);
      if at + n + 1 >= line.Length {
        TakeLineOverrun(whole, sock.ending, line.Length, at + n);
        Overrun();
        found := Overran;
      } else {
        CopyOut(line, at, n);
        assert line[..at + n] == done';
        if readPtr + n < inLength {
          TakeLineFound(whole, sock.ending, line.Length, at + n);
          Skip(n + 1);
          line[at + n] := '\0';
          assert line[..at + n] == done';
          found := Line(at + n);
        }
      }
    }

    /** Reads a line: what comes out depends only on the data, not on how it arrives, except
        that a failing write may stop a read that has to flush first. */
    method ReadLine(line: array<char>, flush: bool) returns (ok: bool)
      requires Valid() && line != inBuf && line != outBuf
      modifies this`error, this`eof, this`readPtr, this`inLength, this`outLength, inBuf, line,
               sock`input, sock`readCount, sock`sent, sock`writeCount
      ensures Valid()
      ensures error == WriteError ==> !ok && (flush || old(error) == WriteError)
      ensures error != WriteError ==>
                var (after, text) := TakeLine(old(Source()), sock.ending, line.Length);
                && Source() == after && (ok <==> text.Some?)
                && (ok ==> |text.value| < line.Length && line[..|text.value|] == text.value && line[|text.value|] == '\0')
      ensures old(sock.writeCount) <= sock.writeCount
      ensures error == WriteError <==>
                old(error) == WriteError || !sock.Taken(old(sock.writeCount), sock.writeCount)
      ensures !flush ==> sock.sent == old(sock.sent)
      ensures flush && sock.readCount != old(sock.readCount) && error != WriteError ==> sock.sent == written
    {
      hide LineLength, TakeLine, NoNewline, File.OutputExact;
      NothingYet();
      ghost var source := Source();
      ghost var whole := if source.Live? then source.stream else "";
      ghost var done := "";
      var at: nat := 0;
      var flushing := flush;
      TakeLineNot(source, sock.ending, line.Length);
      while !eof && error == NoError
        invariant Valid() && at == |done| <= line.Length && line[..at] == done && NoNewline(done)
        invariant error == WriteError ==> flush || old(error) == WriteError
        invariant old(sock.writeCount) <= sock.writeCount
        invariant error == WriteError <==>
                    old(error) == WriteError || !sock.Taken(old(sock.writeCount), sock.writeCount)
        invariant !source.Live? ==> (eof || error != NoError) && Source() == source
        invariant source.Live? && !eof && error == NoError ==> whole == done + Source().stream
        invariant source.Live? && (eof || error != NoError) && error != WriteError ==>
                    whole == done && Source() == Past(sock.ending) && at + 1 < line.Length
        invariant !flush ==> !flushing && sock.sent == old(sock.sent)
        invariant flushing ==> sock.readCount == old(sock.readCount)
        invariant flush && !flushing && error != WriteError ==> sock.sent == written
        decreases if eof || error != NoError then 0 else 1, |sock.input|
      {
        var found;
        found, done := LineFromBuffer(line, at, done);
        match found {
          case Line(n) => return true;
          case Overran => return false;
          case More(n) => at := n;
        }
        MoreInput(flushing);
        flushing := false;
        assert done + "" == done;
      }
      if source.Live? && error != WriteError {
        TakeLineNone(whole, sock.ending, line.Length);
      }
      ok := false;
    }

    /** Copies what the input buffer has towards a block, up to the size of the block. */
    method BlockFromBuffer(data: array<char>, at: nat, ghost done: string) returns (n: nat, ghost more: string)
      requires Valid() && data != inBuf && data != outBuf && !eof && error == NoError
      requires at == |done| < data.Length && data[..at] == done
      modifies this`readPtr, data
      ensures Valid() && |more| == n && at + n <= data.Length && data[..at + n] == done + more
      ensures old(Source()).stream == more + Source().stream
      ensures at + n < data.Length ==> readPtr == inLength && Source().stream == sock.input
    {
      hide File.OutputExact;
      ghost var b := inBuf[readPtr..inLength];
      n := if inLength - readPtr < data.Length - at then inLength - readPtr else data.Length - at;
      more := b[..n];
      CopyOut(data, at, n);
      assert b[..n] + (b[n..] + sock.input) == b + sock.input;
      Skip(n);
    }

    /** Reads exactly as many characters as asked for, or fails. */
    method ReadBlock(data: array<char>) returns (ok: bool)
      requires Valid() && data != inBuf && data != outBuf
      modifies this`error, this`eof, this`readPtr, this`inLength, inBuf, data, sock`input, sock`readCount
      ensures Valid()
      ensures var (after, block) := TakeBlock(old(Source()), sock.ending, data.Length);
              && Source() == after && (ok <==> block.Some?)
              && (ok ==> data[..] == block.value)
    {
      hide File.OutputExact, TakeBlock;
      ghost var source := Source();
      ghost var whole := if source.Live? then source.stream else "";
      ghost var done := "";
      var at: nat := 0;
      TakeBlockNot(source, sock.ending, data.Length);
      while !eof && error == NoError && at < data.Length
        invariant Valid() && at == |done| <= data.Length && data[..at] == done
        invariant !source.Live? ==> (eof || error != NoError) && Source() == source
        invariant source.Live? && !eof && error == NoError ==> whole == done + Source().stream
        invariant source.Live? && (eof || error != NoError) ==>
                    whole == done && at < data.Length && Source() == Past(sock.ending)
        decreases data.Length - at, if eof || error != NoError then 0 else 1, |sock.input|
      {
        var n;
        ghost var more;
        n, more := BlockFromBuffer(data, at, done);
        Regroup(done, more, Source().stream);
        done := done + more;
        at := at + n;
        if at < data.Length {
          FillAgain();
          assert done + "" == done;
        }
      }
      ok := !eof && error == NoError && at == data.Length;
      if source.Live? {
        TakeBlockIs(done, if ok then Source().stream else "", sock.ending, data.Length);
        assert done + "" == done;
      }
    }

    /** Refills the used up input buffer. */
    method FillAgain()
      requires Valid() && !eof && error == NoError && readPtr == inLength
      modifies this`error, this`eof, this`readPtr, this`inLength, inBuf, sock`input, sock`readCount
      ensures Valid()
      ensures old(sock.input) != "" ==>
                error == NoError && !eof && Source() == Live(old(sock.input)) && |sock.input| < |old(sock.input)|
      ensures old(sock.input) == "" ==>
                (eof || error != NoError) && Source() == Past(sock.ending)
    {
      ghost var sent := sock.sent + outBuf[..outLength];
      FillInBuf();
      assert error == NoError ==> written == sent;
      assert error == NoError && !eof ==> inBuf[0..inLength] == inBuf[..inLength];
    }
  }

  /** What looking into the buffer found: a line of length n, too much, or n characters so far. */
  datatype Found = Line(n: nat) | Overran | More(n: nat)

  lemma Regroup(a: string, b: string, c: string)
    ensures a + (b + c) == (a + b) + c
  {
  }

  lemma TakeBlockNot(s: Source, ending: Ending, n: nat)
    ensures !s.Live? ==> TakeBlock(s, ending, n) == (s, None)
  {
  }

  lemma TakeBlockIs(done: string, rest: string, ending: Ending, n: nat)
    ensures |done| == n ==> TakeBlock(Live(done + rest), ending, n) == (Live(rest), Some(done))
    ensures |done| < n && rest == "" ==> TakeBlock(Live(done + rest), ending, n) == (Past(ending), None)
  {
  }

  lemma NothingYet()
    ensures NoNewline("")
  {
  }

  lemma TakeLineNot(s: Source, ending: Ending, size: nat)
    ensures !s.Live? ==> TakeLine(s, ending, size) == (s, None)
  {
  }

  lemma TakeLineOverrun(s: string, ending: Ending, size: nat, n: nat)
    requires n <= LineLength(s) && n + 1 >= size
    ensures TakeLine(Live(s), ending, size) == (Failed, None)
  {
  }

  lemma TakeLineFound(s: string, ending: Ending, size: nat, n: nat)
    requires n == LineLength(s) < |s| && n + 1 < size
    ensures TakeLine(Live(s), ending, size) == (Live(s[n + 1..]), Some(s[..n]))
  {
  }

  lemma TakeLineNone(s: string, ending: Ending, size: nat)
    requires NoNewline(s) && |s| + 1 < size
    ensures TakeLine(Live(s), ending, size) == (Past(ending), None)
  {
  }

  /** What a buffer b says about a line of which some part was seen before. */
  lemma LineFacts(done: string, b: string, rest: string, n: nat)
    requires NoNewline(done) && n <= |b| && NoNewline(b[..n]) && (n < |b| ==> b[n] == '\n')
    ensures |done| + n <= LineLength(done + (b + rest))
    ensures NoNewline(done + b[..n])
    ensures n < |b| ==> LineLength(done + (b + rest)) == |done| + n
    ensures n < |b| ==> (done + (b + rest))[..|done| + n] == done + b[..n]
    ensures n < |b| ==> (done + (b + rest))[|done| + n + 1..] == b[n + 1..] + rest
    ensures n == |b| ==> done + (b + rest) == (done + b[..n]) + rest
  {
    hide LineLength;
    var whole := done + (b + rest);
    assert whole[..|done| + n] == done + b[..n];
    if n < |b| {
      LineLengthIs(whole, |done| + n);
      assert whole[|done| + n + 1..] == b[n + 1..] + rest;
    } else {
      LineLengthMost(whole, |done| + n);
      assert b[..n] == b;
    }
  }

  lemma PrefixOfSum(a: string, b: string, n: nat)
    requires n <= |b|
    ensures a <= a + b[..n] <= a + b
  {
  }
}
