/** The chunked senders of a memory reply, with their buffers and positions, proved to append
    to the output exactly the single-pass reply. */
module MemorySender {
  import opened Common
  import opened MemoryDevice
  import opened MemoryReply

  const WRITE_BUFFER_BYTES := 0x1_0000

  /** The read buffer holds the samples from number pos on. */
  ghost predicate Matches(buf: seq<Word>, f: nat -> Word, pos: nat) {
    forall j :: 0 <= j < |buf| ==> buf[j] == f(pos + j)
  }

  /** As many samples as fit a buffer, with their channels, do fit it. */
  lemma Fits(n: nat, size: nat, ch: Channels)
    requires n <= size / ch.Count()
    ensures n * ch.Count() <= size
  {
  }

  lemma FitsTurns(n: nat, size: nat, bunches: nat, ch: Channels)
    requires bunches > 0 && n <= size / (bunches * ch.Count())
    ensures Span(n, Span(bunches, ch.Count())) <= size
  {
  }

  /** The length of n pieces of one size. */
  function Span(n: nat, size: nat): nat {
    n * size
  }

  lemma SpanStep(i: nat, n: nat, size: nat)
    requires i < n
    ensures Span(i + 1, size) == Span(i, size) + size <= Span(n, size)
  {
  }

  lemma SpanSum(a: nat, b: nat, size: nat)
    ensures Span(a + b, size) == Span(a, size) + Span(b, size)
    ensures Span(0, size) == 0
  {
  }

  /** Unit u of a decimated reply starts at raw turn u * d. */
  lemma UnitStart(u: nat, d: nat, bunches: nat)
    ensures Span(u, Span(d, bunches)) == (u * d) * bunches
  {
  }

  function TagReal(s: seq<real>): (r: seq<Sample>)
    ensures |r| == |s|
  {
    seq(|s|, i requires 0 <= i < |s| => F32(s[i]))
  }

  lemma TagRealEmpty(s: seq<real>)
    requires s == []
    ensures TagReal(s) == []
  {
  }

  lemma TagRealAppend(a: seq<real>, b: seq<real>)
    ensures TagReal(a + b) == TagReal(a) + TagReal(b)
  {
  }

  function TagTerms(s: seq<seq<Term>>, divisor: nat): (r: seq<Sample>)
    ensures |r| == |s|
  {
    seq(|s|, i requires 0 <= i < |s| => C64(s[i], divisor))
  }

  lemma TagTermsEmpty(s: seq<seq<Term>>, divisor: nat)
    requires s == []
    ensures TagTerms(s, divisor) == []
  {
  }

  lemma TagTermsAppend(a: seq<seq<Term>>, b: seq<seq<Term>>, divisor: nat)
    ensures TagTerms(a + b, divisor) == TagTerms(a, divisor) + TagTerms(b, divisor)
  {
  }

  /** Turns before the last one begin before it. */
  lemma TurnsBefore(i: nat, n: nat, bunches: nat)
    requires i <= n
    ensures i * bunches <= n * bunches
    ensures (n - i) * bunches == n * bunches - i * bunches
    ensures i < n ==> (i + 1) * bunches == i * bunches + bunches <= n * bunches
  {
  }

  lemma TagAppend(a: seq<int>, b: seq<int>)
    ensures Tag(a + b) == Tag(a) + Tag(b)
  {
  }

  class Sender {
    const bunches: nat
    var out: seq<Sample>

    ghost predicate Valid()
    {
      0 < bunches <= MAX_BUNCHES
    }

    constructor (bunches: nat)
      requires 0 < bunches <= MAX_BUNCHES
      ensures Valid() && this.bunches == bunches && out == []
    {
      this.bunches := bunches;
      out := [];
    }

    // ----------------------------------------------------------------------------------
    // Channel extraction

    method ExtractOneBunch(readBuffer: seq<Word>, at: nat, ch: Channels, buf: array<int>, w: nat,
                           ghost f: nat -> Word, ghost pos: nat)
      returns (w': nat)
      requires Valid() && ch.Valid(bunches)
      requires at + bunches <= |readBuffer| && Matches(readBuffer, f, pos)
      requires w + ch.Count() <= buf.Length
      modifies buf
      ensures w' == w + ch.Count()
      ensures buf[..w'] == old(buf[..w]) + Extract(f, pos + at, ch)
    {
      w' := w;
      if ch.ch0 {
        assert readBuffer[at + ch.d0] == f(pos + (at + ch.d0));
        assert pos + (at + ch.d0) == pos + at + ch.d0;
        buf[w'] := Low(readBuffer[at + ch.d0]);
        w' := w' + 1;
      }
      if ch.ch1 {
        assert readBuffer[at + ch.d1] == f(pos + (at + ch.d1));
        assert pos + (at + ch.d1) == pos + at + ch.d1;
        buf[w'] := High(readBuffer[at + ch.d1]);
        w' := w' + 1;
      }
    }

    method ExtractChannels(readBuffer: seq<Word>, at: nat, samples: nat, ch: Channels, buf: array<int>,
                           ghost f: nat -> Word, ghost pos: nat)
      returns (n: nat)
      requires Valid() && ch.Valid(bunches)
      requires at + samples + bunches <= |readBuffer| && Matches(readBuffer, f, pos)
      requires samples * ch.Count() <= buf.Length
      modifies buf
      ensures n == samples * ch.Count()
      ensures buf[..n] == Extracts(f, ch, pos + at, samples)
    {
      hide Extract;
      n := 0;
      for i := 0 to samples
        invariant n == i * ch.Count() <= buf.Length
        invariant buf[..n] == Extracts(f, ch, pos + at, i)
      {
        TurnsBefore(i, samples, ch.Count());
        assert pos + (at + i) == pos + at + (i + 1) - 1;
        n := ExtractOneBunch(readBuffer, at + i, ch, buf, n, f, pos);
      }
    }

    // ----------------------------------------------------------------------------------
    // 16-bit samples

    method SendInt16Block(ch: Channels, readBuffer: seq<Word>, at: nat, writeSamples: nat,
                          ghost f: nat -> Word, ghost pos: nat)
      requires Valid() && ch.Valid(bunches)
      requires at + writeSamples + bunches <= |readBuffer| && Matches(readBuffer, f, pos)
      requires writeSamples <= WRITE_BUFFER_BYTES / 2 / ch.Count()
      modifies this`out
      ensures out == old(out) + Reply(Plain, f, ch, bunches, pos + at, writeSamples)
    {
      Fits(writeSamples, WRITE_BUFFER_BYTES / 2, ch);
      var writeBuffer := new int[WRITE_BUFFER_BYTES / 2];
      var n := ExtractChannels(readBuffer, at, writeSamples, ch, writeBuffer, f, pos);
      PlainReply(f, ch, bunches, pos + at, writeSamples);
      out := out + Tag(writeBuffer[..n]);
    }

    method SendInt16(ch: Channels, readBuffer: seq<Word>, readSamples: nat,
                     ghost f: nat -> Word, ghost pos: nat)
      requires Valid() && ch.Valid(bunches)
      requires readSamples + bunches <= |readBuffer| && Matches(readBuffer, f, pos)
      modifies this`out
      ensures out == old(out) + Reply(Plain, f, ch, bunches, pos, readSamples)
    {
      hide Reply;
      var maxSamples := WRITE_BUFFER_BYTES / 2 / ch.Count();
      var at := 0;
      ReplyEmpty(Plain, f, ch, bunches, pos);
      while at < readSamples
        invariant at <= readSamples
        invariant out == old(out) + Reply(Plain, f, ch, bunches, pos, at)
      {
        var writeSamples := Min(readSamples - at, maxSamples);
        SendInt16Block(ch, readBuffer, at, writeSamples, f, pos);
        ReplySplit(Plain, f, ch, bunches, pos, at, writeSamples);
        at := at + writeSamples;
      }
    }

    // ----------------------------------------------------------------------------------
    // One bunch

    /** Reads the given turns of one bunch, from the turn that starts at the given place. */
    method ComputeBunchTurnData(readBuffer: seq<Word>, at: nat, bunch: nat, writeTurns: nat,
                                writeBuffer: array<int>, ch: Channels,
                                ghost f: nat -> Word, ghost pos: nat, ghost turn: nat)
      returns (n: nat)
      requires Valid() && ch.Valid(bunches) && bunch < bunches
      requires at + writeTurns * bunches + bunches <= |readBuffer| && Matches(readBuffer, f, pos)
      requires pos + at == turn * bunches
      requires writeTurns * ch.Count() <= writeBuffer.Length
      modifies writeBuffer
      ensures n == writeTurns * ch.Count()
      ensures Tag(writeBuffer[..n]) == Reply(Single(bunch), f, ch, bunches, turn, writeTurns)
    {
      hide Reply, Extract;
      n := 0;
      var ix := at + bunch;
      ReplyEmpty(Single(bunch), f, ch, bunches, turn);
      for i := 0 to writeTurns
        invariant n == i * ch.Count() <= writeBuffer.Length
        invariant ix == at + i * bunches + bunch
        invariant Tag(writeBuffer[..n]) == Reply(Single(bunch), f, ch, bunches, turn, i)
      {
        TurnsBefore(i, writeTurns, ch.Count());
        TurnsBefore(i, writeTurns, bunches);
        TurnsBefore(turn, turn + i, bunches);
        ghost var before := writeBuffer[..n];
        n := ExtractOneBunch(readBuffer, ix, ch, writeBuffer, n, f, pos);
        TagAppend(before, Extract(f, pos + ix, ch));
        SingleUnit(bunch, f, ch, turn, i, pos + ix);
        ix := ix + bunches;
      }
    }

    lemma SingleUnit(bunch: nat, f: nat -> Word, ch: Channels, turn: nat, i: nat, p: nat)
      requires ch.Valid(bunches) && bunch < bunches
      requires p == (turn + i) * bunches + bunch
      ensures Reply(Single(bunch), f, ch, bunches, turn, i + 1) ==
              Reply(Single(bunch), f, ch, bunches, turn, i) + Tag(Extract(f, p, ch))
    {
    }

    method SendBunchBlock(ch: Channels, bunch: nat, readBuffer: seq<Word>, at: nat, writeTurns: nat,
                          ghost f: nat -> Word, ghost pos: nat, ghost turn: nat)
      requires Valid() && ch.Valid(bunches) && bunch < bunches
      requires at + writeTurns * bunches + bunches <= |readBuffer| && Matches(readBuffer, f, pos)
      requires pos + at == turn * bunches
      requires writeTurns <= WRITE_BUFFER_BYTES / 2 / ch.Count()
      modifies this`out
      ensures out == old(out) + Reply(Single(bunch), f, ch, bunches, turn, writeTurns)
    {
      Fits(writeTurns, WRITE_BUFFER_BYTES / 2, ch);
      var writeBuffer := new int[WRITE_BUFFER_BYTES / 2];
      var n := ComputeBunchTurnData(readBuffer, at, bunch, writeTurns, writeBuffer, ch, f, pos, turn);
      out := out + Tag(writeBuffer[..n]);
    }

    method SendBunch(ch: Channels, bunch: nat, readBuffer: seq<Word>, readTurns: nat,
                     ghost f: nat -> Word, ghost pos: nat, ghost turn: nat)
      requires Valid() && ch.Valid(bunches) && bunch < bunches
      requires readTurns * bunches + bunches <= |readBuffer| && Matches(readBuffer, f, pos)
      requires pos == turn * bunches
      modifies this`out
      ensures out == old(out) + Reply(Single(bunch), f, ch, bunches, turn, readTurns)
    {
      hide Reply;
      var maxSamples := WRITE_BUFFER_BYTES / 2 / ch.Count();
      var at, done := 0, 0;
      ReplyEmpty(Single(bunch), f, ch, bunches, turn);
      while done < readTurns
        invariant done <= readTurns && at == done * bunches
        invariant out == old(out) + Reply(Single(bunch), f, ch, bunches, turn, done)
      {
        var writeTurns := Min(readTurns - done, maxSamples);
        TurnsBefore(done, done + writeTurns, bunches);
        TurnsBefore(done + writeTurns, readTurns, bunches);
        TurnsBefore(turn, turn + done, bunches);
        SendBunchBlock(ch, bunch, readBuffer, at, writeTurns, f, pos, turn + done);
        ReplySplit(Single(bunch), f, ch, bunches, turn, done, writeTurns);
        at := at + writeTurns * bunches;
        done := done + writeTurns;
      }
    }

    // ----------------------------------------------------------------------------------
    // Decimated turns

    /** One raw turn of the selected channels. */
    method ExtractTurn(readBuffer: seq<Word>, at: nat, ch: Channels,
                       ghost f: nat -> Word, ghost pos: nat, ghost n: nat)
      returns (buf: array<int>)
      requires Valid() && ch.Valid(bunches)
      requires at + bunches + bunches <= |readBuffer| && Matches(readBuffer, f, pos)
      requires pos + at == n * bunches
      ensures fresh(buf) && buf.Length == bunches * ch.Count()
      ensures forall j :: 0 <= j < buf.Length ==> buf[j] == TurnValue(f, ch, bunches, n, j)
    {
      buf := new int[bunches * ch.Count()];
      var count := ExtractChannels(readBuffer, at, bunches, ch, buf, f, pos);
      ExtractsAt(f, ch, pos + at, bunches);
      assert buf[..count] == buf[..];
    }

    /** Adds a turn to the column sums. */
    method AddTurn(turnBuffer: array<real>, w: nat, channelBuffer: array<int>)
      requires w + channelBuffer.Length <= turnBuffer.Length
      modifies turnBuffer
      ensures forall k :: w <= k < w + channelBuffer.Length ==>
                turnBuffer[k] == old(turnBuffer[k]) + channelBuffer[k - w] as real
      ensures turnBuffer[..w] == old(turnBuffer[..w])
    {
      for i := 0 to channelBuffer.Length
        invariant forall k :: w <= k < w + i ==>
                    turnBuffer[k] == old(turnBuffer[k]) + channelBuffer[k - w] as real
        invariant forall k :: w + i <= k < turnBuffer.Length ==> turnBuffer[k] == old(turnBuffer[k])
        invariant turnBuffer[..w] == old(turnBuffer[..w])
      {
        turnBuffer[w + i] := turnBuffer[w + i] + channelBuffer[i] as real;
      }
    }

    method ComputeFloat32TurnData(readBuffer: seq<Word>, at: nat, turnBuffer: array<real>, w: nat,
                                  ch: Channels, decimation: nat,
                                  ghost f: nat -> Word, ghost pos: nat, ghost n: nat)
      returns (count: nat)
      requires Valid() && ch.Valid(bunches) && decimation > 0
      requires at + decimation * bunches + bunches <= |readBuffer| && Matches(readBuffer, f, pos)
      requires pos + at == n * bunches
      requires w + bunches * ch.Count() <= turnBuffer.Length
      modifies turnBuffer
      ensures count == bunches * ch.Count()
      ensures turnBuffer[..w] == old(turnBuffer[..w])
      ensures forall k :: w <= k < w + count ==>
                turnBuffer[k] == ColumnSum(f, ch, bunches, n, decimation, k - w) as real / decimation as real
    {
      hide TurnValue;
      count := bunches * ch.Count();
      forall j | w <= j < w + count {
        turnBuffer[j] := 0.0;
      }
      var ix := at;
      for d := 0 to decimation
        invariant ix == at + d * bunches
        invariant turnBuffer[..w] == old(turnBuffer[..w])
        invariant forall k :: w <= k < w + count ==>
                    turnBuffer[k] == ColumnSum(f, ch, bunches, n, d, k - w) as real
      {
        TurnsBefore(d, decimation, bunches);
        TurnsBefore(n, n + d, bunches);
        var channelBuffer := ExtractTurn(readBuffer, ix, ch, f, pos, n + d);
        AddTurn(turnBuffer, w, channelBuffer);
        ix := ix + bunches;
      }
      Divide(turnBuffer, w, count, decimation);
    }

    method Divide(turnBuffer: array<real>, w: nat, count: nat, decimation: nat)
      requires w + count <= turnBuffer.Length && decimation > 0
      modifies turnBuffer
      ensures turnBuffer[..w] == old(turnBuffer[..w])
      ensures forall k :: w <= k < w + count ==> turnBuffer[k] == old(turnBuffer[k]) / decimation as real
    {
      for i := 0 to count
        invariant turnBuffer[..w] == old(turnBuffer[..w])
        invariant forall k :: w <= k < w + i ==> turnBuffer[k] == old(turnBuffer[k]) / decimation as real
        invariant forall k :: w + i <= k < turnBuffer.Length ==> turnBuffer[k] == old(turnBuffer[k])
      {
        turnBuffer[w + i] := turnBuffer[w + i] / decimation as real;
      }
    }

    /** One decimated turn as unit u of the reply. */
    method Float32Unit(ch: Channels, decimation: nat, readBuffer: seq<Word>, at: nat,
                       turnBuffer: array<real>, w: nat,
                       ghost f: nat -> Word, ghost pos: nat, ghost u: nat)
      returns (count: nat)
      requires Valid() && ch.Valid(bunches) && decimation > 0
      requires at + Span(decimation, bunches) + bunches <= |readBuffer| && Matches(readBuffer, f, pos)
      requires pos + at == Span(u, Span(decimation, bunches))
      requires w + Span(bunches, ch.Count()) <= turnBuffer.Length
      modifies turnBuffer
      ensures count == Span(bunches, ch.Count())
      ensures turnBuffer[..w] == old(turnBuffer[..w])
      ensures TagReal(turnBuffer[w..w + count]) == Unit(Mean(decimation), f, ch, bunches, u)
    {
      hide Unit, ColumnSum;
      UnitStart(u, decimation, bunches);
      count := ComputeFloat32TurnData(readBuffer, at, turnBuffer, w, ch, decimation, f, pos, u * decimation);
      MeanUnit(decimation, f, ch, bunches, u);
    }

    method SendFloat32Block(ch: Channels, decimation: nat, readBuffer: seq<Word>, at: nat, writeTurns: nat,
                            ghost f: nat -> Word, ghost pos: nat, ghost lo: nat)
      requires Valid() && ch.Valid(bunches) && decimation > 0
      requires at + Span(writeTurns, Span(decimation, bunches)) + bunches <= |readBuffer|
      requires Matches(readBuffer, f, pos)
      requires pos + at == Span(lo, Span(decimation, bunches))
      requires Span(writeTurns, Span(bunches, ch.Count())) <= WRITE_BUFFER_BYTES / 4
      modifies this`out
      ensures out == old(out) + Reply(Mean(decimation), f, ch, bunches, lo, writeTurns)
    {
      hide Reply, Unit, TagReal, Span;
      var writeBuffer := new real[WRITE_BUFFER_BYTES / 4];
      var step := Span(decimation, bunches);
      var perTurn := Span(bunches, ch.Count());
      var ix, w := at, 0;
      SpanSum(0, 0, step);
      SpanSum(0, 0, perTurn);
      TagRealEmpty(writeBuffer[..0]);
      ReplyEmpty(Mean(decimation), f, ch, bunches, lo);
      for turn := 0 to writeTurns
        invariant ix == at + Span(turn, step) && w == Span(turn, perTurn) <= writeBuffer.Length
        invariant out == old(out)
        invariant TagReal(writeBuffer[..w]) == Reply(Mean(decimation), f, ch, bunches, lo, turn)
      {
        SpanStep(turn, writeTurns, step);
        SpanStep(turn, writeTurns, perTurn);
        SpanSum(lo, turn, step);
        ghost var before := writeBuffer[..w];
        var count := Float32Unit(ch, decimation, readBuffer, ix, writeBuffer, w, f, pos, lo + turn);
        assert writeBuffer[..w + count] == before + writeBuffer[w..w + count];
        TagRealAppend(before, writeBuffer[w..w + count]);
        ReplyNext(Mean(decimation), f, ch, bunches, lo, turn);
        ix := ix + step;
        w := w + count;
      }
      out := out + TagReal(writeBuffer[..w]);
    }

    method SendFloat32(ch: Channels, decimation: nat, readBuffer: seq<Word>, readTurns: nat,
                       ghost f: nat -> Word, ghost pos: nat, ghost lo: nat)
      requires Valid() && ch.Valid(bunches) && decimation > 0
      requires Span(readTurns, Span(decimation, bunches)) + bunches <= |readBuffer|
      requires Matches(readBuffer, f, pos)
      requires pos == Span(lo, Span(decimation, bunches))
      modifies this`out
      ensures out == old(out) + Reply(Mean(decimation), f, ch, bunches, lo, readTurns)
    {
      hide Reply, Span;
      var step := Span(decimation, bunches);
      var turnsPerBuffer := WRITE_BUFFER_BYTES / 4 / (bunches * ch.Count());
      TurnFits(ch);
      var at, done := 0, 0;
      SpanSum(0, 0, step);
      ReplyEmpty(Mean(decimation), f, ch, bunches, lo);
      while done < readTurns
        invariant done <= readTurns && at == Span(done, step)
        invariant out == old(out) + Reply(Mean(decimation), f, ch, bunches, lo, done)
      {
        var writeTurns := Min(readTurns - done, turnsPerBuffer);
        FitsTurns(writeTurns, WRITE_BUFFER_BYTES / 4, bunches, ch);
        SpanSum(done, writeTurns, step);
        SpanSum(done + writeTurns, readTurns - done - writeTurns, step);
        SpanSum(lo, done, step);
        SendFloat32Block(ch, decimation, readBuffer, at, writeTurns, f, pos, lo + done);
        ReplySplit(Mean(decimation), f, ch, bunches, lo, done, writeTurns);
        at := at + Span(writeTurns, step);
        done := done + writeTurns;
      }
    }

    /** A decimated turn of either format fits the write buffer, so the loops advance. */
    lemma TurnFits(ch: Channels)
      requires Valid()
      ensures WRITE_BUFFER_BYTES / 4 / (bunches * ch.Count()) > 0
      ensures WRITE_BUFFER_BYTES / 8 / (bunches * ch.Count()) > 0
    {
    }

    // ----------------------------------------------------------------------------------
    // Decimated and frequency shifted turns

    /** The fixup table: the angle of each bunch, repeated for every selected channel. */
    method PrepareTuneDecimate(ch: Channels, tune: nat) returns (fixup: seq<nat>)
      requires Valid() && ch.Valid(bunches)
      ensures |fixup| == bunches * ch.Count()
      ensures forall j :: 0 <= j < |fixup| ==> fixup[j] == FixupAt(tune, BunchOf(ch, j))
    {
      hide FixupAt;
      fixup := [];
      var angle := 0;
      FixupZero(tune);
      for i := 0 to bunches
        invariant angle == FixupAt(tune, i)
        invariant |fixup| == i * ch.Count()
        invariant forall j :: 0 <= j < |fixup| ==> fixup[j] == FixupAt(tune, BunchOf(ch, j))
      {
        if ch.Count() == 1 {
          fixup := fixup + [angle];
        } else {
          fixup := fixup + [angle] + [angle];
        }
        FixupNext(tune, i);
        angle := (angle + tune) % WORD64;
      }
    }

    /** Adds a turn, turned by the running angle, to the column terms. */
    method AddTurnedTurn(turnBuffer: array<seq<Term>>, w: nat, channelBuffer: array<int>, phase: nat)
      requires w + channelBuffer.Length <= turnBuffer.Length
      modifies turnBuffer
      ensures forall k :: w <= k < w + channelBuffer.Length ==>
                turnBuffer[k] == old(turnBuffer[k]) + [Term(phase, channelBuffer[k - w])]
      ensures turnBuffer[..w] == old(turnBuffer[..w])
    {
      for i := 0 to channelBuffer.Length
        invariant forall k :: w <= k < w + i ==>
                    turnBuffer[k] == old(turnBuffer[k]) + [Term(phase, channelBuffer[k - w])]
        invariant forall k :: w + i <= k < turnBuffer.Length ==> turnBuffer[k] == old(turnBuffer[k])
        invariant turnBuffer[..w] == old(turnBuffer[..w])
      {
        turnBuffer[w + i] := turnBuffer[w + i] + [Term(phase, channelBuffer[i])];
      }
    }

    method ApplyFixup(turnBuffer: array<seq<Term>>, w: nat, fixup: seq<nat>)
      requires w + |fixup| <= turnBuffer.Length
      modifies turnBuffer
      ensures forall k :: w <= k < w + |fixup| ==> turnBuffer[k] == Turned(old(turnBuffer[k]), fixup[k - w])
      ensures turnBuffer[..w] == old(turnBuffer[..w])
    {
      hide Turned;
      for i := 0 to |fixup|
        invariant forall k :: w <= k < w + i ==> turnBuffer[k] == Turned(old(turnBuffer[k]), fixup[k - w])
        invariant forall k :: w + i <= k < turnBuffer.Length ==> turnBuffer[k] == old(turnBuffer[k])
        invariant turnBuffer[..w] == old(turnBuffer[..w])
      {
        turnBuffer[w + i] := Turned(turnBuffer[w + i], fixup[i]);
      }
    }

    /** One decimated turn before the fixup; the running angle advances once a raw turn. */
    method AccumulateTurns(readBuffer: seq<Word>, at: nat, turnBuffer: array<seq<Term>>, w: nat,
                           ch: Channels, decimation: nat, tune: nat, angle: nat,
                           ghost f: nat -> Word, ghost pos: nat, ghost n: nat)
      returns (angle': nat)
      requires Valid() && ch.Valid(bunches)
      requires at + decimation * bunches + bunches <= |readBuffer| && Matches(readBuffer, f, pos)
      requires pos + at == n * bunches && angle == AngleAt(bunches, tune, n)
      requires w + bunches * ch.Count() <= turnBuffer.Length
      modifies turnBuffer
      ensures angle' == AngleAt(bunches, tune, n + decimation)
      ensures turnBuffer[..w] == old(turnBuffer[..w])
      ensures forall k :: w <= k < w + bunches * ch.Count() ==>
                turnBuffer[k] == RawTerms(f, ch, bunches, tune, n, decimation, k - w)
    {
      hide TurnValue, AngleAt;
      var count := bunches * ch.Count();
      var turnAdvance := (tune * bunches) % WORD64;
      forall j | w <= j < w + count {
        turnBuffer[j] := [];
      }
      angle' := angle;
      var ix := at;
      for d := 0 to decimation
        invariant ix == at + d * bunches && angle' == AngleAt(bunches, tune, n + d)
        invariant turnBuffer[..w] == old(turnBuffer[..w])
        invariant forall k :: w <= k < w + count ==>
                    turnBuffer[k] == RawTerms(f, ch, bunches, tune, n, d, k - w)
      {
        TurnsBefore(d, decimation, bunches);
        TurnsBefore(n, n + d, bunches);
        var channelBuffer := ExtractTurn(readBuffer, ix, ch, f, pos, n + d);
        AddTurnedTurn(turnBuffer, w, channelBuffer, angle' % PHASE);
        AngleNext(bunches, tune, n + d);
        angle' := (angle' + turnAdvance) % WORD64;
        ix := ix + bunches;
      }
    }

    /** One decimated and shifted turn as unit u of the reply. */
    method Complex64Unit(ch: Channels, decimation: nat, tune: nat, fixup: seq<nat>, angle: nat,
                         readBuffer: seq<Word>, at: nat, turnBuffer: array<seq<Term>>, w: nat,
                         ghost f: nat -> Word, ghost pos: nat, ghost u: nat)
      returns (count: nat, angle': nat)
      requires Valid() && ch.Valid(bunches) && decimation > 0
      requires at + Span(decimation, bunches) + bunches <= |readBuffer| && Matches(readBuffer, f, pos)
      requires pos + at == Span(u, Span(decimation, bunches))
      requires w + Span(bunches, ch.Count()) <= turnBuffer.Length
      requires angle == AngleAt(bunches, tune, u * decimation)
      requires Fixup(ch, tune, fixup)
      modifies turnBuffer
      ensures count == Span(bunches, ch.Count())
      ensures turnBuffer[..w] == old(turnBuffer[..w])
      ensures TagTerms(turnBuffer[w..w + count], decimation) == Unit(Shifted(decimation, tune), f, ch, bunches, u)
      ensures angle' == AngleAt(bunches, tune, (u + 1) * decimation)
    {
      hide Unit, RawTerms, ColumnTerms, AngleAt, FixupAt, Turned;
      UnitStart(u, decimation, bunches);
      OneMore(u, decimation);
      angle' := AccumulateTurns(readBuffer, at, turnBuffer, w, ch, decimation, tune, angle, f, pos, u * decimation);
      count := bunches * ch.Count();
      ApplyFixup(turnBuffer, w, fixup);
      forall k | w <= k < w + count
        ensures turnBuffer[k] == ColumnTerms(f, ch, bunches, tune, u * decimation, decimation, k - w)
      {
        FixedTerms(f, ch, bunches, tune, u * decimation, decimation, k - w);
      }
      ShiftedUnit(decimation, tune, f, ch, bunches, u);
    }

    ghost predicate Fixup(ch: Channels, tune: nat, fixup: seq<nat>)
    {
      |fixup| == bunches * ch.Count() &&
      forall j :: 0 <= j < |fixup| ==> fixup[j] == FixupAt(tune, BunchOf(ch, j))
    }

    method SendComplex64Block(ch: Channels, decimation: nat, tune: nat, fixup: seq<nat>, angle: nat,
                              readBuffer: seq<Word>, at: nat, writeTurns: nat,
                              ghost f: nat -> Word, ghost pos: nat, ghost lo: nat)
      returns (angle': nat)
      requires Valid() && ch.Valid(bunches) && decimation > 0
      requires at + Span(writeTurns, Span(decimation, bunches)) + bunches <= |readBuffer|
      requires Matches(readBuffer, f, pos)
      requires pos + at == Span(lo, Span(decimation, bunches))
      requires Span(writeTurns, Span(bunches, ch.Count())) <= WRITE_BUFFER_BYTES / 8
      requires angle == AngleAt(bunches, tune, lo * decimation) && Fixup(ch, tune, fixup)
      modifies this`out
      ensures out == old(out) + Reply(Shifted(decimation, tune), f, ch, bunches, lo, writeTurns)
      ensures angle' == AngleAt(bunches, tune, (lo + writeTurns) * decimation)
    {
      hide Reply, Unit, TagTerms, Span, AngleAt;
      var writeBuffer := new seq<Term>[WRITE_BUFFER_BYTES / 8];
      var step := Span(decimation, bunches);
      var perTurn := Span(bunches, ch.Count());
      var ix, w := at, 0;
      angle' := angle;
      SpanSum(0, 0, step);
      SpanSum(0, 0, perTurn);
      TagTermsEmpty(writeBuffer[..0], decimation);
      ReplyEmpty(Shifted(decimation, tune), f, ch, bunches, lo);
      for turn := 0 to writeTurns
        invariant ix == at + Span(turn, step) && w == Span(turn, perTurn) <= writeBuffer.Length
        invariant out == old(out)
        invariant angle' == AngleAt(bunches, tune, (lo + turn) * decimation)
        invariant TagTerms(writeBuffer[..w], decimation) ==
                  Reply(Shifted(decimation, tune), f, ch, bunches, lo, turn)
      {
        SpanStep(turn, writeTurns, step);
        SpanStep(turn, writeTurns, perTurn);
        SpanSum(lo, turn, step);
        ghost var before := writeBuffer[..w];
        var count;
        count, angle' := Complex64Unit(ch, decimation, tune, fixup, angle', readBuffer, ix, writeBuffer, w,
                                       f, pos, lo + turn);
        assert writeBuffer[..w + count] == before + writeBuffer[w..w + count];
        TagTermsAppend(before, writeBuffer[w..w + count], decimation);
        ReplyNext(Shifted(decimation, tune), f, ch, bunches, lo, turn);
        ix := ix + step;
        w := w + count;
      }
      out := out + TagTerms(writeBuffer[..w], decimation);
    }

    method SendComplex64(ch: Channels, decimation: nat, tune: nat, fixup: seq<nat>, angle: nat,
                         readBuffer: seq<Word>, readTurns: nat,
                         ghost f: nat -> Word, ghost pos: nat, ghost lo: nat)
      returns (angle': nat)
      requires Valid() && ch.Valid(bunches) && decimation > 0
      requires Span(readTurns, Span(decimation, bunches)) + bunches <= |readBuffer|
      requires Matches(readBuffer, f, pos)
      requires pos == Span(lo, Span(decimation, bunches))
      requires angle == AngleAt(bunches, tune, lo * decimation) && Fixup(ch, tune, fixup)
      modifies this`out
      ensures out == old(out) + Reply(Shifted(decimation, tune), f, ch, bunches, lo, readTurns)
      ensures angle' == AngleAt(bunches, tune, (lo + readTurns) * decimation)
    {
      hide Reply, Span, AngleAt;
      var step := Span(decimation, bunches);
      var turnsPerBuffer := WRITE_BUFFER_BYTES / 8 / (bunches * ch.Count());
      TurnFits(ch);
      var at, done := 0, 0;
      angle' := angle;
      SpanSum(0, 0, step);
      ReplyEmpty(Shifted(decimation, tune), f, ch, bunches, lo);
      while done < readTurns
        invariant done <= readTurns && at == Span(done, step)
        invariant angle' == AngleAt(bunches, tune, (lo + done) * decimation)
        invariant out == old(out) + Reply(Shifted(decimation, tune), f, ch, bunches, lo, done)
      {
        var writeTurns := Min(readTurns - done, turnsPerBuffer);
        FitsTurns(writeTurns, WRITE_BUFFER_BYTES / 8, bunches, ch);
        SpanSum(done, writeTurns, step);
        SpanSum(done + writeTurns, readTurns - done - writeTurns, step);
        SpanSum(lo, done, step);
        angle' := SendComplex64Block(ch, decimation, tune, fixup, angle', readBuffer, at, writeTurns,
                                     f, pos, lo + done);
        ReplySplit(Shifted(decimation, tune), f, ch, bunches, lo, done, writeTurns);
        at := at + Span(writeTurns, step);
        done := done + writeTurns;
      }
    }
  }
}
