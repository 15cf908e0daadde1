/** Readout of the tune PLL FIFOs: two buffers, a hand-over to EPICS, and samples that must
    neither be lost nor repeated on the way. */
module PllFifo {
  import opened Common

  const PLL_FIFO_SIZE := 1025

  /** Why a buffer was handed to EPICS. */
  datatype Cause = Full | Overrun | Stopped

  datatype Emission = Emission(data: seq<int>, cause: Cause)

  /** One read of the hardware FIFO: the samples found and whether it had overrun. */
  datatype Read = Read(samples: seq<int>, overrun: bool)
  {
    /** The hardware never claims more than it can hold. */
    predicate Valid() {
      |samples| <= PLL_FIFO_SIZE
    }
  }

  datatype Stage = Start | Update | Stop

  /** The FIFO between two operations.  While EPICS is busy the buffer is the one it was
      handed, and new samples that did not fit are held over.  The emissions are those since
      the FIFO was last enabled or reset. */
  datatype Fifo = Fifo(size: nat, busy: bool, buffer: seq<int>, held: seq<int>, enabled: bool, overflow: bool,
                       interrupts: bool, emitted: seq<Emission>)
  {
    /** Samples taken from the hardware and not handed over yet. */
    function Pending(): seq<int> {
      if busy then held else buffer
    }

    ghost predicate Inv() {
      && PLL_FIFO_SIZE < size
      && |held| <= PLL_FIFO_SIZE && |buffer| <= size
      && (!busy ==> |buffer| < size && held == [])
      && (busy ==> emitted != [] && emitted[|emitted| - 1].data == buffer)
      && (held != [] ==> |buffer| == size)
      && forall i :: 0 <= i < |emitted| ==> |emitted[i].data| <= size && (emitted[i].cause.Full? ==> |emitted[i].data| == size)
    }

    /** Between operations the last hardware read asked for an interrupt if and only if the
        FIFO is enabled. */
    ghost predicate Settled() {
      Inv() && interrupts == enabled
    }
  }

  // ------------------------------------------------------------------------------------
  // Operations on values

  function Process(f: Fifo, stage: Stage, read: Read): Fifo
    requires |f.Pending()| <= f.size
  {
    var copied := Min(|read.samples|, f.size - |f.Pending()|);
    var buffer := f.Pending() + read.samples[..copied];
    var g := f.(overflow := read.overrun, interrupts := stage != Stop, buffer := buffer);
    if stage == Stop || |buffer| == f.size || (read.overrun && stage != Start) then
      g.(busy := true, held := read.samples[copied..],
         emitted := f.emitted + [Emission(buffer, if stage == Stop then Stopped else if |buffer| == f.size then Full else Overrun)])
    else
      g.(busy := false, held := [])
  }

  lemma ProcessEmits(f: Fifo, stage: Stage, read: Read, copied: nat, buffer: seq<int>, cause: Cause)
    requires |f.Pending()| <= f.size && copied == Min(|read.samples|, f.size - |f.Pending()|)
    requires buffer == f.Pending() + read.samples[..copied]
    requires stage == Stop || |buffer| == f.size || (read.overrun && stage != Start)
    requires cause == if stage == Stop then Stopped else if |buffer| == f.size then Full else Overrun
    ensures Process(f, stage, read) ==
            Fifo(f.size, true, buffer, read.samples[copied..], f.enabled, read.overrun, stage != Stop,
                 f.emitted + [Emission(buffer, cause)])
  {
  }

  lemma ProcessKeeps(f: Fifo, stage: Stage, read: Read, copied: nat, buffer: seq<int>)
    requires |f.Pending()| <= f.size && copied == Min(|read.samples|, f.size - |f.Pending()|)
    requires buffer == f.Pending() + read.samples[..copied]
    requires stage != Stop && |buffer| != f.size && !(read.overrun && stage != Start)
    ensures Process(f, stage, read) ==
            Fifo(f.size, false, buffer, [], f.enabled, read.overrun, stage != Stop, f.emitted)
  {
  }

  function Cleared(f: Fifo): Fifo {
    f.(busy := false, buffer := [], held := [], overflow := false, emitted := [])
  }

  datatype Op =
    | Enable(flush: bool, discarded: Read, first: Read)
    | Disable(last: Read)
    | Reset(discarded: Read)
    | Ready(read: Read)
  {
    predicate Valid() {
      match this
      case Enable(_, d, r) => d.Valid() && r.Valid()
      case Disable(r) => r.Valid()
      case Reset(d) => d.Valid()
      case Ready(r) => r.Valid()
    }
  }

  function Step(f: Fifo, op: Op): Fifo
    requires |f.Pending()| <= f.size
  {
    match op
    case Enable(_, _, first) => if f.enabled then f else Process(Cleared(f).(enabled := true), Start, first)
    case Disable(last) => if f.enabled then Process(f, Stop, last).(enabled := false) else f
    case Reset(_) => if f.enabled then Cleared(f).(interrupts := true) else f
    case Ready(read) => if f.enabled then Process(f, Update, read) else f
  }

  function Created(size: nat): Fifo {
    Fifo(size, false, [], [], false, false, false, [])
  }

  lemma StepInv(f: Fifo, op: Op)
    requires f.Settled() && op.Valid()
    ensures Step(f, op).Settled() && Step(f, op).size == f.size
  {
  }

  function Run(size: nat, ops: seq<Op>): (f: Fifo)
    requires PLL_FIFO_SIZE < size && forall i :: 0 <= i < |ops| ==> ops[i].Valid()
    ensures f.Settled() && f.size == size
  {
    if ops == [] then Created(size)
    else
      var f := Run(size, ops[..|ops| - 1]);
      StepInv(f, ops[|ops| - 1]);
      Step(f, ops[|ops| - 1])
  }

  // ------------------------------------------------------------------------------------
  // Conservation

  function Flatten(es: seq<Emission>): seq<int> {
    if es == [] then [] else Flatten(es[..|es| - 1]) + es[|es| - 1].data
  }

  /** What a run of operations reads and keeps, told without any buffers: every sample read
      while enabled, starting afresh when the FIFO is enabled or reset. */
  datatype History = History(enabled: bool, samples: seq<int>)

  function Extend(h: History, op: Op): History {
    match op
    case Enable(_, _, first) => if h.enabled then h else History(true, first.samples)
    case Disable(last) => if h.enabled then History(false, h.samples + last.samples) else h
    case Reset(_) => if h.enabled then History(true, []) else h
    case Ready(read) => if h.enabled then History(true, h.samples + read.samples) else h
  }

  function HistoryOf(ops: seq<Op>): History {
    if ops == [] then History(false, []) else Extend(HistoryOf(ops[..|ops| - 1]), ops[|ops| - 1])
  }

  ghost predicate Conserved(f: Fifo, h: History) {
    && f.enabled == h.enabled
    && Flatten(f.emitted) + f.Pending() == h.samples
  }

  lemma Regroup(e: seq<int>, p: seq<int>, a: seq<int>, b: seq<int>)
    ensures (e + (p + a)) + b == (e + p) + (a + b)
  {
  }

  lemma ProcessConserves(f: Fifo, stage: Stage, read: Read)
    requires |f.Pending()| <= f.size
    ensures Flatten(Process(f, stage, read).emitted) + Process(f, stage, read).Pending() ==
            Flatten(f.emitted) + f.Pending() + read.samples
  {
  }

  lemma StepConserves(f: Fifo, h: History, op: Op)
    requires f.Inv() && op.Valid() && Conserved(f, h)
    ensures Conserved(Step(f, op), Extend(h, op))
  {
    hide Process;
    if f.enabled && (op.Disable? || op.Ready?) {
      ProcessConserves(f, if op.Disable? then Stop else Update, if op.Disable? then op.last else op.read);
    } else if !f.enabled && op.Enable? {
      ProcessConserves(Cleared(f).(enabled := true), Start, op.first);
      assert Process(Cleared(f).(enabled := true), Start, op.first).enabled by {
        KeepsEnabled(Cleared(f).(enabled := true), Start, op.first);
      }
    }
    if op.Ready? && f.enabled {
      KeepsEnabled(f, Update, op.read);
    }
  }

  lemma KeepsEnabled(f: Fifo, stage: Stage, read: Read)
    requires |f.Pending()| <= f.size
    ensures Process(f, stage, read).enabled == f.enabled
  {
  }

  /** After any run the buffers handed over, in order, followed by what is still pending are
      exactly the samples read since the FIFO was last enabled or reset. */
  lemma {:induction false} RunConserves(size: nat, ops: seq<Op>)
    requires PLL_FIFO_SIZE < size && forall i :: 0 <= i < |ops| ==> ops[i].Valid()
    ensures Conserved(Run(size, ops), HistoryOf(ops))
  {
    if ops != [] {
      RunConserves(size, ops[..|ops| - 1]);
      StepConserves(Run(size, ops[..|ops| - 1]), HistoryOf(ops[..|ops| - 1]), ops[|ops| - 1]);
    }
  }

  /** The first read after enabling is never handed over on its own, even on an overrun. */
  lemma EnablingEmitsNothing(f: Fifo, op: Op)
    requires f.Inv() && op.Valid() && op.Enable? && !f.enabled
    ensures Step(f, op).emitted == [] && !Step(f, op).busy && Step(f, op).buffer == op.first.samples
  {
  }

  // ------------------------------------------------------------------------------------
  // When a buffer is handed over, and what it holds

  /** What a ready event hands over, in terms of the samples waiting and those found: one buffer
      if the samples fill it or the hardware had overrun, with as many of them as it holds. */
  lemma ReadyExact(f: Fifo, read: Read)
    requires f.Settled() && f.enabled && read.Valid()
    ensures var g, all := Step(f, Ready(read)), f.Pending() + read.samples;
            && (g.busy <==> read.overrun || |all| >= f.size)
            && (g.busy ==>
                  && g.emitted == f.emitted + [if |all| >= f.size then Emission(all[..f.size], Full) else Emission(all, Overrun)]
                  && g.held == if |all| >= f.size then all[f.size..] else [])
            && (!g.busy ==> g.emitted == f.emitted && g.buffer == all)
            && g.enabled && g.interrupts && g.overflow == read.overrun
  {
    WholeRead(f, read.samples);
  }

  /** Disabling always hands over one buffer, with as many of the samples as it holds. */
  lemma DisableExact(f: Fifo, last: Read)
    requires f.Settled() && f.enabled && last.Valid()
    ensures var g, all := Step(f, Disable(last)), f.Pending() + last.samples;
            && g.emitted == f.emitted + [Emission(if |all| >= f.size then all[..f.size] else all, Stopped)]
            && g.busy && g.held == (if |all| >= f.size then all[f.size..] else [])
            && !g.enabled && !g.interrupts && g.overflow == last.overrun
  {
    WholeRead(f, last.samples);
  }

  /** What fits of a read, and what does not. */
  lemma WholeRead(f: Fifo, samples: seq<int>)
    requires f.Inv()
    ensures var all, copied := f.Pending() + samples, Min(|samples|, f.size - |f.Pending()|);
            && f.Pending() + samples[..copied] == (if |all| >= f.size then all[..f.size] else all)
            && samples[copied..] == (if |all| >= f.size then all[f.size..] else [])
  {
  }

  /** Enabling starts with the samples of its first read and hands over nothing, not even on an
      overrun; resetting drops everything; and what is not enabled takes no notice of events. */
  lemma EnableResetExact(f: Fifo, op: Op)
    requires f.Settled() && op.Valid()
    ensures op.Enable? && !f.enabled ==>
              Step(f, op) == Fifo(f.size, false, op.first.samples, [], true, op.first.overrun, true, [])
    ensures op.Reset? && f.enabled ==> Step(f, op) == Fifo(f.size, false, [], [], true, false, true, [])
    ensures f.enabled == op.Enable? ==> Step(f, op) == f
  {
    if op.Enable? && !f.enabled {
      assert [] + op.first.samples[..|op.first.samples|] == op.first.samples;
    }
  }

  /** Disabling hands over everything exactly when the last samples still fit: what does not
      fit is held over. */
  lemma DisablingLosesNothing(f: Fifo, h: History, op: Op)
    requires f.Inv() && op.Valid() && op.Disable? && f.enabled && Conserved(f, h)
    ensures Flatten(Step(f, op).emitted) == Extend(h, op).samples <==> |f.Pending()| + |op.last.samples| <= f.size
  {
  }

  /** Nothing is lost, whatever is found in the hardware, exactly when a whole hardware FIFO
      would still fit. */
  lemma DisablingIsSafe(f: Fifo, h: History)
    requires f.Inv() && f.enabled && Conserved(f, h)
    ensures (forall last: Read :: last.Valid() ==> Flatten(Step(f, Disable(last)).emitted) == Extend(h, Disable(last)).samples) <==>
            |f.Pending()| + PLL_FIFO_SIZE <= f.size
  {
    forall last: Read | last.Valid()
      ensures Flatten(Step(f, Disable(last)).emitted) == Extend(h, Disable(last)).samples <==>
              |f.Pending()| + |last.samples| <= f.size
    {
      DisablingLosesNothing(f, h, Disable(last));
    }
    assert Read(seq(PLL_FIFO_SIZE, _ => 0), false).Valid();
  }

  /** What is held over when a FIFO is disabled is the end of the last read.  It is in no buffer
      handed over so far, and after the next enable it is in none of those that follow: they and
      what is then pending start with the samples read by that enable. */
  lemma HeldIsLost(f: Fifo, h: History, last: Read, next: Op)
    requires f.Settled() && f.enabled && Conserved(f, h) && last.Valid() && next.Enable? && next.Valid()
    ensures var d := Step(f, Disable(last));
            && d.held == last.samples[Min(|last.samples|, f.size - |f.Pending()|)..]
            && Flatten(d.emitted) + d.held == h.samples + last.samples
            && Conserved(Step(d, next), History(true, next.first.samples))
  {
    hide Step, Process, Flatten, Fifo.Inv;
    PendingFits(f);
    var d := Step(f, Disable(last));
    StepInv(f, Disable(last));
    DisableHolds(f, last);
    StepConserves(f, h, Disable(last));
    PendingFits(d);
    StepConserves(d, Extend(h, Disable(last)), next);
  }

  lemma PendingFits(f: Fifo)
    requires f.Inv()
    ensures |f.Pending()| <= f.size
  {
  }

  lemma DisableHolds(f: Fifo, last: Read)
    requires |f.Pending()| <= f.size && f.enabled
    ensures var d := Step(f, Disable(last));
            d.busy && !d.enabled && d.held == last.samples[Min(|last.samples|, f.size - |f.Pending()|)..]
  {
  }

  /** In the smallest buffer there is room for one more sample than the hardware holds: a FIFO
      that is enabled when the hardware is full, and disabled when it holds two samples again,
      hands over the first of them and loses the second. */
  lemma DisablingLosesOne(first: Read)
    requires |first.samples| == PLL_FIFO_SIZE
    ensures var ops := [Enable(false, Read([], false), first), Disable(Read([7, 8], false))];
            var f := Run(PLL_FIFO_SIZE + 1, ops);
            f.emitted == [Emission(first.samples + [7], Stopped)] && f.held == [8]
  {
    var ops := [Enable(false, Read([], false), first), Disable(Read([7, 8], false))];
    assert ops[..1] == [ops[0]] && ops[..1][..0] == [];
    var f1 := Run(PLL_FIFO_SIZE + 1, ops[..1]);
    assert Run(PLL_FIFO_SIZE + 1, []) == Created(PLL_FIFO_SIZE + 1);
    assert f1 == Step(Created(PLL_FIFO_SIZE + 1), ops[0]);
    assert first.samples[..PLL_FIFO_SIZE] == first.samples;
    assert f1.buffer == first.samples && !f1.busy;
    assert [7, 8][..1] == [7] && [7, 8][1..] == [8];
  }

  // ------------------------------------------------------------------------------------
  // The buffers in place

  class ReadoutFifo {
    const buffer: array<int>
    const readBuffer: array<int>
    var bufferCount: nat
    var readBufferCount: nat
    var epicsBusy: bool
    var enabled: bool
    var overflow: bool
    /** Whether the last hardware read asked for the next interrupt. */
    var interrupts: bool
    ghost var emitted: seq<Emission>
    /** Set while EPICS may be reading the buffer. */
    ghost var reading: bool

    ghost predicate Valid()
      reads this, buffer, readBuffer
    {
      && buffer != readBuffer && readBuffer.Length == PLL_FIFO_SIZE
      && bufferCount <= buffer.Length && readBufferCount <= PLL_FIFO_SIZE
      && reading == epicsBusy
      && State().Inv()
    }

    ghost predicate Settled()
      reads this, buffer, readBuffer
    {
      Valid() && interrupts == enabled
    }

    ghost function State(): Fifo
      reads this, buffer, readBuffer
      requires bufferCount <= buffer.Length && readBufferCount <= readBuffer.Length
    {
      Fifo(buffer.Length, epicsBusy, buffer[..bufferCount], if epicsBusy then readBuffer[..readBufferCount] else [],
           enabled, overflow, interrupts, emitted)
    }

    constructor (size: nat, discarded: Read)
      requires PLL_FIFO_SIZE < size && discarded.Valid()
      ensures Settled() && State() == Created(size) && fresh(buffer) && fresh(readBuffer)
    {
      buffer, readBuffer := new int[size], new int[PLL_FIFO_SIZE];
      bufferCount, readBufferCount := 0, 0;
      epicsBusy, enabled, overflow, interrupts := false, false, false, false;
      emitted, reading := [], false;
      new;
      var _, _ := HwReadFifo(discarded, false);
    }

    /** Waits for EPICS to finish with the buffer it was handed, if it was. */
    method EnsureEpicsIdle() returns (busy: bool)
      requires reading == epicsBusy
      modifies `epicsBusy, `reading
      ensures busy == old(epicsBusy) && !epicsBusy && !reading
    {
      busy := epicsBusy;
      if busy {
        reading := false;
        epicsBusy := false;
      }
    }

    /** Reads the hardware FIFO into the read buffer. */
    method HwReadFifo(read: Read, enableInterrupts: bool) returns (samples: nat, overrun: bool)
      requires read.Valid() && readBuffer.Length == PLL_FIFO_SIZE
      modifies readBuffer, `interrupts
      ensures samples == |read.samples| && readBuffer[..samples] == read.samples
      ensures overrun == read.overrun && interrupts == enableInterrupts
    {
      samples := |read.samples|;
      forall i | 0 <= i < samples {
        readBuffer[i] := read.samples[i];
      }
      overrun := read.overrun;
      interrupts := enableInterrupts;
    }

    /** Appends the first n samples of the read buffer; only allowed while EPICS is not looking. */
    method FillBuffer(at: nat, n: nat)
      requires !reading && buffer != readBuffer && n <= readBuffer.Length && at + n <= buffer.Length
      modifies buffer, `bufferCount
      ensures bufferCount == at + n && buffer[..bufferCount] == old(buffer[..at]) + readBuffer[..n]
    {
      forall i | 0 <= i < n {
        buffer[at + i] := readBuffer[i];
      }
      bufferCount := at + n;
    }

    /** Hands the buffer to EPICS and keeps what was not copied into it. */
    method EmitBuffer(cause: Cause, samples: nat, toCopy: nat)
      requires buffer != readBuffer && bufferCount <= buffer.Length && toCopy <= samples <= readBuffer.Length
      modifies `epicsBusy, `reading, `emitted, `readBufferCount, readBuffer
      ensures epicsBusy && reading && readBufferCount == samples - toCopy
      ensures emitted == old(emitted) + [Emission(buffer[..bufferCount], cause)]
      ensures readBuffer[..readBufferCount] == old(readBuffer[toCopy..samples])
    {
      ghost var data := buffer[..bufferCount];
      epicsBusy := true;
      reading := true;
      emitted := emitted + [Emission(buffer[..bufferCount], cause)];
      readBufferCount := samples - toCopy;
      forall i | 0 <= i < readBufferCount {
        readBuffer[i] := readBuffer[toCopy + i];
      }
      assert buffer[..bufferCount] == data;
    }

    /** Takes back the buffer and starts it with what was held over. */
    method ReclaimBuffer()
      requires Valid()
      modifies this`epicsBusy, this`reading, this`bufferCount, buffer
      ensures !epicsBusy && !reading && bufferCount < buffer.Length
      ensures buffer[..bufferCount] == old(State()).Pending()
    {
      var busy := EnsureEpicsIdle();
      if busy {
        FillBuffer(0, readBufferCount);
      }
    }

    /** Reads the hardware and appends what fits; says how much was read and how much fitted. */
    method AppendFromHardware(enableInterrupts: bool, read: Read) returns (samples: nat, toCopy: nat)
      requires !reading && buffer != readBuffer && readBuffer.Length == PLL_FIFO_SIZE
      requires bufferCount < buffer.Length && read.Valid()
      modifies this`overflow, this`interrupts, this`bufferCount, buffer, readBuffer
      ensures samples == |read.samples| && toCopy == Min(samples, buffer.Length - old(bufferCount))
      ensures overflow == read.overrun && interrupts == enableInterrupts
      ensures bufferCount == old(bufferCount) + toCopy
      ensures buffer[..bufferCount] == old(buffer[..bufferCount]) + read.samples[..toCopy]
      ensures readBuffer[toCopy..samples] == read.samples[toCopy..]
    {
      ghost var was := buffer[..bufferCount];
      samples, overflow := HwReadFifo(read, enableInterrupts);
      assert buffer[..bufferCount] == was;
      toCopy := Min(samples, buffer.Length - bufferCount);
      FillBuffer(bufferCount, toCopy);
      assert readBuffer[..toCopy] == read.samples[..toCopy];
    }

    method ProcessFifoContent(stage: Stage, read: Read)
      requires Valid() && read.Valid()
      modifies this, buffer, readBuffer
      ensures bufferCount <= buffer.Length && readBufferCount <= PLL_FIFO_SIZE && reading == epicsBusy
      ensures State() == Process(old(State()), stage, read)
    {
      hide Fifo.Inv, Process;
      ghost var was := State();
      ReclaimBuffer();
      var samples, toCopy := AppendFromHardware(stage != Stop, read);
      ghost var data := buffer[..bufferCount];
      if stage == Stop || bufferCount == buffer.Length || (overflow && stage != Start) {
        var cause := if stage == Stop then Stopped else if bufferCount == buffer.Length then Full else Overrun;
        EmitBuffer(cause, samples, toCopy);
        assert State().buffer == data;
        ProcessEmits(was, stage, read, toCopy, data, cause);
      } else {
        ProcessKeeps(was, stage, read, toCopy, data);
      }
    }

    method ResetFifo(flushHardware: bool, enableInterrupts: bool, discarded: Read)
      requires discarded.Valid() && readBuffer.Length == PLL_FIFO_SIZE && !epicsBusy
      modifies `bufferCount, `overflow, `interrupts, readBuffer
      ensures bufferCount == 0 && !overflow
      ensures interrupts == if flushHardware then enableInterrupts else old(interrupts)
    {
      bufferCount := 0;
      overflow := false;
      if flushHardware {
        var _, _ := HwReadFifo(discarded, enableInterrupts);
      }
    }

    method EnableReadoutFifo(flush: bool, discarded: Read, first: Read)
      requires Settled() && discarded.Valid() && first.Valid()
      modifies this, buffer, readBuffer
      ensures Settled() && State() == Step(old(State()), Enable(flush, discarded, first))
    {
      StepInv(State(), Enable(flush, discarded, first));
      if !enabled {
        var _ := EnsureEpicsIdle();
        enabled := true;
        ResetFifo(flush, true, discarded);
        emitted := [];
        ghost var reset := State();
        ProcessFifoContent(Start, first);
      }
    }

    method DisableReadoutFifo(last: Read)
      requires Settled() && last.Valid()
      modifies this, buffer, readBuffer
      ensures Settled() && State() == Step(old(State()), Disable(last))
    {
      StepInv(State(), Disable(last));
      if enabled {
        ProcessFifoContent(Stop, last);
        enabled := false;
      }
    }

    method ResetReadoutFifo(discarded: Read)
      requires Settled() && discarded.Valid()
      modifies this, readBuffer
      ensures Settled() && State() == Step(old(State()), Reset(discarded))
    {
      if enabled {
        var _ := EnsureEpicsIdle();
        ResetFifo(true, true, discarded);
        emitted := [];
      }
    }

    method HandleFifoReady(read: Read)
      requires Settled() && read.Valid()
      modifies this, buffer, readBuffer
      ensures Settled() && State() == Step(old(State()), Ready(read))
    {
      StepInv(State(), Ready(read));
      if enabled {
        ProcessFifoContent(Update, read);
      }
    }

    /** Called from EPICS while it processes the buffer: sees the buffer as it was handed over. */
    method ReadFifoBuffer() returns (data: seq<int>)
      requires Valid() && epicsBusy
      ensures emitted != [] && data == emitted[|emitted| - 1].data
    {
      data := buffer[..bufferCount];
    }
  }
}
