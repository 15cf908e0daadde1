/** Reading the fast memory: the DMA engine of the kernel driver, the device file above it
    and the user space loop above that.  Bytes of the device are a sequence. */
module MemoryDevice {
  import opened Common

  type byte = b: int | 0 <= b < 256

  const ALIGNMENT := 32
  const MAX_DMA_TRANSFER := 8388576
  const PAGE_SHIFT := 12

  function Pow2(n: nat): (p: nat)
    ensures p > 0
  {
    if n == 0 then 1 else 2 * Pow2(n - 1)
  }

  lemma {:induction false} Pow2Aligned(n: nat)
    requires n >= PAGE_SHIFT
    ensures Pow2(n) % 4096 == 0 && Pow2(n) >= 4096
  {
    if n == PAGE_SHIFT {
      assert Pow2(12) == 2 * Pow2(11) == 4 * Pow2(10) == 8 * Pow2(9) == 16 * Pow2(8) == 32 * Pow2(7);
      assert Pow2(7) == 2 * Pow2(6) == 4 * Pow2(5) == 8 * Pow2(4) == 16 * Pow2(3) == 32 * Pow2(2);
    } else {
      Pow2Aligned(n - 1);
    }
  }

  function AlignDown(n: nat): nat {
    n - n % ALIGNMENT
  }

  function AlignUp(n: nat): nat {
    AlignDown(n + ALIGNMENT - 1)
  }

  lemma AlignUpBound(n: nat, bound: nat)
    requires n <= bound && bound % ALIGNMENT == 0
    ensures n <= AlignUp(n) <= bound
  {
    var q, d := bound / ALIGNMENT, (n + ALIGNMENT - 1) / ALIGNMENT;
    assert bound == ALIGNMENT * q && AlignUp(n) == ALIGNMENT * d;
  }

  lemma AlignDownBound(n: nat, bound: nat)
    requires bound <= n && bound % ALIGNMENT == 0
    ensures bound <= AlignDown(n) <= n
  {
    var q, d := bound / ALIGNMENT, n / ALIGNMENT;
    assert bound == ALIGNMENT * q && AlignDown(n) == ALIGNMENT * d;
  }

  lemma SumAligned(a: nat, b: nat)
    requires a % ALIGNMENT == 0 && b % ALIGNMENT == 0
    ensures (a + b) % ALIGNMENT == 0
  {
    var q, d := a / ALIGNMENT, b / ALIGNMENT;
    assert a + b == ALIGNMENT * (q + d);
  }

  /** The transfer for a request: aligned, covering what is delivered, and no further than the
      request rounded up to a whole unit. */
  lemma PlanBounds(start: nat, count: nat, maxCount: nat, size: nat)
    requires start + count <= size && size % ALIGNMENT == 0
    requires maxCount % ALIGNMENT == 0 && maxCount >= ALIGNMENT
    ensures var total := AlignUp(start % ALIGNMENT + count);
            var planned := if total > maxCount then maxCount else total;
            && planned % ALIGNMENT == 0
            && AlignDown(start) % ALIGNMENT == 0
            && AlignDown(start) + planned <= AlignUp(start + count) <= size
            && start % ALIGNMENT + (if total > maxCount then maxCount - start % ALIGNMENT else count) <= planned
            && (total > maxCount ==> maxCount - start % ALIGNMENT < count)
            && (total <= maxCount ==> count <= maxCount - start % ALIGNMENT)
  {
    AlignUpBound(start + count, size);
    assert AlignUp(start + count) == AlignDown(start) + AlignUp(start % ALIGNMENT + count);
  }

  /** One transfer programmed into the DMA engine. */
  datatype Transfer = Transfer(start: nat, count: nat)

  lemma SubSlice<T>(s: seq<T>, base: nat, length: nat, offset: nat, count: nat)
    requires base + length <= |s| && offset + count <= length
    ensures s[base..base + length][offset..offset + count] == s[base + offset..base + offset + count]
  {
    var window := s[base..base + length];
    var a, b := window[offset..offset + count], s[base + offset..base + offset + count];
    forall k | 0 <= k < count ensures a[k] == b[k] {
      assert a[k] == window[offset + k] == s[base + offset + k];
    }
  }

  /** Equal slices have equal sub-slices. */
  lemma SliceOfEqual<T>(x: seq<T>, i: nat, y: seq<T>, j: nat, length: nat, offset: nat, count: nat)
    requires i + length <= |x| && j + length <= |y| && offset + count <= length
    requires x[i..i + length] == y[j..j + length]
    ensures x[i + offset..i + offset + count] == y[j + offset..j + offset + count]
  {
    SubSlice(x, i, length, offset, count);
    SubSlice(y, j, length, offset, count);
  }

  datatype DmaResult = Killed | Data(offset: nat, count: nat)

  class DmaControl {
    const ram: seq<byte>
    const buffer: array<byte>
    var held: bool
    ghost var transfers: seq<Transfer>

    ghost predicate Valid()
    {
      && buffer.Length % ALIGNMENT == 0
      && buffer.Length >= 4096
      && |ram| <= WORD32
      && |ram| % ALIGNMENT == 0
    }

    constructor (ram: seq<byte>, shift: nat)
      requires shift >= PAGE_SHIFT
      requires |ram| <= WORD32 && |ram| % ALIGNMENT == 0
      ensures Valid() && !held && this.ram == ram && buffer.Length == Pow2(shift) && fresh(buffer)
    {
      this.ram := ram;
      buffer := new byte[Pow2(shift)](_ => 0);
      held := false;
      transfers := [];
      Pow2Aligned(shift);
    }

    /** The largest transfer, a multiple of the alignment. */
    function MaxCount(): nat
    {
      if buffer.Length < MAX_DMA_TRANSFER then buffer.Length else MAX_DMA_TRANSFER
    }

    /** How much of a request one transfer delivers. */
    function Delivered(start: nat, count: nat): nat
      requires Valid()
    {
      if AlignUp(start % ALIGNMENT + count) > MaxCount() then MaxCount() - start % ALIGNMENT else count
    }

    /** The transfer the engine makes, with the source address cut to 32 bits as written to
        the engine. */
    method Transact(start: nat, count: nat)
      requires Valid() && held
      requires start % ALIGNMENT == 0 && count % ALIGNMENT == 0
      requires count <= buffer.Length && start + count <= |ram|
      modifies this`transfers, buffer
      ensures transfers == old(transfers) + [Transfer(start, count)]
      ensures buffer[0..count] == ram[start..start + count]
    {
      var source := start % WORD32;
      transfers := transfers + [Transfer(start, count)];
      forall k | 0 <= k < count {
        buffer[k] := ram[source + k];
      }
    }

    /** On success the caller is left holding the buffer and must release it. */
    method ReadDmaMemory(start: nat, count: nat, killed: bool) returns (r: DmaResult)
      requires Valid() && !held && start + count <= |ram|
      modifies this, buffer
      ensures Valid()
      ensures held == r.Data? == !killed
      ensures r.Data? ==>
                && r.count == Delivered(start, count) <= count
                && r.count == Min(count, Min(buffer.Length, 8388576) - start % 32)
                && (count > 0 ==> r.count > 0)
                && r.offset + r.count <= buffer.Length
                && buffer[r.offset..r.offset + r.count] == ram[start..start + r.count]
      ensures exists t :: transfers == old(transfers) + [t] && SafeTransfer(t, start, count)
    {
      hide AlignUp;
      var dmaStart := start - start % ALIGNMENT;
      var startOffset := start % ALIGNMENT;
      var dmaCount := AlignUp(startOffset + count);
      var maxCount := if buffer.Length < MAX_DMA_TRANSFER then buffer.Length else MAX_DMA_TRANSFER;
      var available := count;
      if dmaCount > maxCount {
        dmaCount := maxCount;
        available := dmaCount - startOffset;
      }
      PlanBounds(start, count, maxCount, |ram|);
      assert SafeTransfer(Transfer(dmaStart, dmaCount), start, count);
      held := true;
      Transact(dmaStart, dmaCount);
      if killed {
        held := false;
        r := Killed;
      } else {
        r := Data(startOffset, available);
        SliceOfEqual(buffer[..], 0, ram, dmaStart, dmaCount, startOffset, available);
      }
    }

    /** Aligned at both ends, within the engine's limit and the buffer, starting less than one
        unit before the request and ending within one unit of its end. */
    ghost predicate SafeTransfer(t: Transfer, start: nat, count: nat)
    {
      && t.start % ALIGNMENT == 0
      && t.count % ALIGNMENT == 0
      && t.count <= MAX_DMA_TRANSFER
      && t.count <= buffer.Length
      && t.start == AlignDown(start)
      && t.start + t.count <= AlignUp(start + count)
    }

    method ReleaseDmaMemory()
      requires held
      modifies this`held
      ensures !held
    {
      held := false;
    }
  }

  // ------------------------------------------------------------------------------------
  // The device file

  datatype ReadOutcome = Bytes(count: nat) | EndOfFile | Fault | Interrupted

  /** An open memory device: a window onto the device memory with a file position. */
  class MemoryFile {
    const dma: DmaControl
    const base: nat
    const length: nat
    var fPos: nat

    ghost predicate Valid()
    {
      && dma.Valid()
      && base % ALIGNMENT == 0 && length % ALIGNMENT == 0
      && length > 0 && base + length <= |dma.ram|
    }

    constructor (dma: DmaControl, base: nat, length: nat)
      requires dma.Valid() && base % ALIGNMENT == 0 && length % ALIGNMENT == 0
      requires length > 0 && base + length <= |dma.ram|
      ensures Valid() && this.dma == dma && this.base == base && this.length == length && fPos == 0
    {
      this.dma := dma;
      this.base := base;
      this.length := length;
      fPos := 0;
    }

    /** The contents of the window. */
    function Contents(): seq<byte>
      requires Valid()
    {
      dma.ram[base..base + length]
    }

    /** A transfer within the window. */
    ghost predicate InWindow(t: Transfer)
    {
      && t.start % ALIGNMENT == 0 && t.count % ALIGNMENT == 0
      && t.count <= MAX_DMA_TRANSFER
      && base <= t.start && t.start + t.count <= base + length
    }

    ghost predicate AllInWindow()
      reads dma
    {
      forall k :: 0 <= k < |dma.transfers| ==> InWindow(dma.transfers[k])
    }

    /** Copies from the DMA buffer as much as the caller's buffer accepts. */
    method CopyToUser(dest: array<byte>, place: nat, offset: nat, count: nat, copyLimit: nat)
      returns (copied: nat)
      requires place + count <= dest.Length && offset + count <= dma.buffer.Length && dest != dma.buffer
      modifies dest
      ensures copied == if count <= copyLimit then count else copyLimit
      ensures dest[place..place + copied] == dma.buffer[offset..offset + copied]
      ensures dest[..place] == old(dest[..place])
      ensures dest[place + count..] == old(dest[place + count..])
    {
      copied := if count <= copyLimit then count else copyLimit;
      forall k | place <= k < place + copied {
        dest[k] := dma.buffer[offset + (k - place)];
      }
    }

    /** One transfer and its copy to the caller, with the DMA buffer released on every path. */
    method Fetch(dest: array<byte>, place: nat, offset: nat, wanted: nat, killed: bool, copyLimit: nat)
      returns (fetched: bool, copied: nat)
      requires Valid() && !dma.held && AllInWindow()
      requires offset + wanted <= length
      requires place + wanted <= dest.Length && dest != dma.buffer
      modifies dma, dma.buffer, dest
      ensures !dma.held && AllInWindow()
      ensures fetched == !killed
      ensures fetched ==> copied == Min(copyLimit, Min(wanted, Min(dma.buffer.Length, 8388576) - (base + offset) % 32))
      ensures fetched ==> copied <= wanted && (wanted > 0 && copyLimit > 0 ==> copied > 0)
      ensures fetched ==> dest[place..place + copied] == Contents()[offset..offset + copied]
      ensures dest[..place] == old(dest[..place])
    {
      hide DmaControl.Delivered, DmaControl.SafeTransfer, AlignUp, AlignDown;
      ghost var before := dma.transfers;
      var data := dma.ReadDmaMemory(base + offset, wanted, killed);
      TransferInWindow(before, offset, wanted);
      if data.Killed? {
        return false, 0;
      }
      copied := CopyToUser(dest, place, data.offset, data.count, copyLimit);
      SliceOfEqual(dma.buffer[..], data.offset, dma.ram, base + offset, data.count, 0, copied);
      SubSlice(dma.ram, base, length, offset, copied);
      dma.ReleaseDmaMemory();
      fetched := true;
    }

    lemma TransferInWindow(before: seq<Transfer>, offset: nat, wanted: nat)
      requires Valid() && offset + wanted <= length
      requires exists t :: dma.transfers == before + [t] && dma.SafeTransfer(t, base + offset, wanted)
      requires forall k :: 0 <= k < |before| ==> InWindow(before[k])
      ensures AllInWindow()
    {
      var t :| dma.transfers == before + [t] && dma.SafeTransfer(t, base + offset, wanted);
      SafeInWindow(t, offset, wanted);
    }

    lemma SafeInWindow(t: Transfer, offset: nat, wanted: nat)
      requires Valid() && offset + wanted <= length
      requires dma.SafeTransfer(t, base + offset, wanted)
      ensures InWindow(t)
    {
      hide AlignDown, AlignUp;
      SumAligned(base, length);
      AlignDownBound(base + offset, base);
      AlignUpBound(base + offset + wanted, base + length);
    }

    /** The kernel read: dest is the caller's buffer from the given place on, at most
        copyLimit bytes of it can be written, and the transfer may be killed. */
    method Read(dest: array<byte>, place: nat, count: nat, killed: bool, copyLimit: nat)
      returns (r: ReadOutcome)
      requires Valid() && !dma.held && AllInWindow()
      requires place + count <= dest.Length && dest != dma.buffer
      modifies this`fPos, dma, dma.buffer, dest
      ensures Valid() && !dma.held && AllInWindow()
      ensures r.EndOfFile? <==> old(fPos) == length
      ensures old(fPos) > length ==> r == Fault
      ensures r.Bytes? ==>
                && old(fPos) + r.count <= length
                && 0 < r.count <= count
                && r.count == Min(copyLimit, Min(Min(count, length - old(fPos)), Min(dma.buffer.Length, 8388576) - (base + old(fPos)) % 32))
                && dest[place..place + r.count] == Contents()[old(fPos)..old(fPos) + r.count]
                && fPos == (if old(fPos) + r.count == length then 0 else old(fPos) + r.count)
      ensures !r.Bytes? ==> fPos == old(fPos)
      ensures old(fPos) < length && !killed && copyLimit > 0 && count > 0 ==> r.Bytes?
      ensures dest[..place] == old(dest[..place])
    {
      var offset := fPos;
      if offset == length {
        return EndOfFile;
      } else if offset > length {
        return Fault;
      }
      var wanted := if count > length - offset then length - offset else count;
      var fetched, copied := Fetch(dest, place, offset, wanted, killed, copyLimit);
      if !fetched {
        return Interrupted;
      }
      fPos := fPos + copied;
      if fPos == length {
        fPos := 0;
      }
      if copied == 0 {
        r := Fault;
      } else {
        r := Bytes(copied);
      }
    }
  }

  // ------------------------------------------------------------------------------------
  // Circular positions

  /** Position n on a circle of m places. */
  function Wrap(n: nat, m: nat): (r: nat)
    requires m > 0
    ensures r < m
  {
    if n < m then n else Wrap(n - m, m)
  }

  /** Moving on by count places that do not pass the end of the circle. */
  lemma {:induction false} WrapAdvance(n: nat, count: nat, m: nat)
    requires m > 0 && Wrap(n, m) + count <= m
    ensures Wrap(n + count, m) == if Wrap(n, m) + count == m then 0 else Wrap(n, m) + count
  {
    if n >= m {
      assert n + count - m == (n - m) + count;
      WrapAdvance(n - m, count, m);
    }
  }

  lemma {:induction false} WrapDram(n: nat)
    ensures Wrap(n, DRAM0_LENGTH) == n % DRAM0_LENGTH
  {
    if n >= DRAM0_LENGTH {
      WrapDram(n - DRAM0_LENGTH);
    }
  }

  // ------------------------------------------------------------------------------------
  // The user space loop

  const DRAM0_LENGTH := 0x8000_0000

  /** What the environment does to the n-th read of a loop: kill its transfer, and limit how
      much of it can be copied out. */
  datatype Environment = Environment(killed: nat -> bool, copyLimit: nat -> nat)

  ghost predicate Benign(env: Environment) {
    forall n :: !env.killed(n) && env.copyLimit(n) > 0
  }

  /** Seeks and reads the requested number of bytes.  The loop ends with everything read or,
      if a read was killed or copied nothing, with an error. */
  method ReadDmaMemory(device: MemoryFile, seekOffset: nat, request: nat, result: array<byte>, env: Environment)
    returns (ok: bool)
    requires device.Valid() && !device.dma.held && device.AllInWindow()
    requires seekOffset < device.length
    requires result.Length == request && result != device.dma.buffer
    modifies device`fPos, device.dma, device.dma.buffer, result
    ensures device.Valid() && !device.dma.held && device.AllInWindow()
    ensures Benign(env) ==> ok
    ensures ok ==> forall k :: 0 <= k < request ==>
              result[k] == device.Contents()[Wrap(seekOffset + k, device.length)]
  {
    device.fPos := seekOffset;
    ok := true;
    var done, turn := 0, 0;
    while ok && done < request
      invariant Benign(env) ==> ok
      invariant device.Valid() && !device.dma.held && device.AllInWindow()
      invariant done <= request
      invariant ok ==> device.fPos == Wrap(seekOffset + done, device.length)
      invariant ok ==> forall k :: 0 <= k < done ==>
                  result[k] == device.Contents()[Wrap(seekOffset + k, device.length)]
      decreases request - done + if ok then 1 else 0
    {
      ghost var pos := device.fPos;
      ghost var before := result[..];
      var r := device.Read(result, done, request - done, env.killed(turn), env.copyLimit(turn));
      turn := turn + 1;
      match r {
        case Bytes(count) =>
          ReadPiece(before, result[..], device.Contents(), seekOffset, done, count, pos);
          WrapAdvance(seekOffset + done, count, device.length);
          done := done + count;
        case _ =>
          ok := false;
      }
    }
  }

  lemma ReadPiece(before: seq<byte>, after: seq<byte>, contents: seq<byte>,
                  seekOffset: nat, done: nat, count: nat, pos: nat)
    requires |contents| > 0 && |before| == |after| && done + count <= |after|
    requires pos == Wrap(seekOffset + done, |contents|) && pos + count <= |contents|
    requires forall k :: 0 <= k < done ==> before[k] == contents[Wrap(seekOffset + k, |contents|)]
    requires after[..done] == before[..done]
    requires after[done..done + count] == contents[pos..pos + count]
    ensures forall k :: 0 <= k < done + count ==> after[k] == contents[Wrap(seekOffset + k, |contents|)]
  {
    forall k | done <= k < done + count ensures after[k] == contents[Wrap(seekOffset + k, |contents|)] {
      assert after[k] == after[done..done + count][k - done] == contents[pos + (k - done)];
      WrapAdvance(seekOffset + done, k - done, |contents|);
    }
  }

  // ------------------------------------------------------------------------------------
  // 32-bit samples

  function LittleEndian(b0: byte, b1: byte, b2: byte, b3: byte): Word {
    b0 + 0x100 * b1 + 0x1_0000 * b2 + 0x100_0000 * b3
  }

  /** The sample at a byte offset of the memory taken as a circle. */
  function SampleAt(memory: seq<byte>, offset: nat): Word
    requires |memory| > 0
  {
    LittleEndian(memory[Wrap(offset, |memory|)], memory[Wrap(offset + 1, |memory|)],
                 memory[Wrap(offset + 2, |memory|)], memory[Wrap(offset + 3, |memory|)])
  }

  /** The result buffer read as 32-bit words. */
  function Words(bytes: seq<byte>): (ws: seq<Word>)
    requires |bytes| % 4 == 0
    ensures |ws| == |bytes| / 4
  {
    seq(|bytes| / 4, j requires 0 <= j < |bytes| / 4 =>
      LittleEndian(bytes[4 * j], bytes[4 * j + 1], bytes[4 * j + 2], bytes[4 * j + 3]))
  }

  lemma WordsAreSamples(bytes: seq<byte>, memory: seq<byte>, offset: nat)
    requires |bytes| % 4 == 0 && |memory| == DRAM0_LENGTH
    requires forall k :: 0 <= k < |bytes| ==>
               bytes[k] == memory[Wrap(offset % DRAM0_LENGTH + k, DRAM0_LENGTH)]
    ensures forall j :: 0 <= j < |Words(bytes)| ==> Words(bytes)[j] == SampleAt(memory, offset + 4 * j)
  {
    forall j | 0 <= j < |Words(bytes)| ensures Words(bytes)[j] == SampleAt(memory, offset + 4 * j) {
      ByteAt(bytes, memory, offset, 4 * j);
      ByteAt(bytes, memory, offset, 4 * j + 1);
      ByteAt(bytes, memory, offset, 4 * j + 2);
      ByteAt(bytes, memory, offset, 4 * j + 3);
    }
  }

  lemma ByteAt(bytes: seq<byte>, memory: seq<byte>, offset: nat, k: nat)
    requires k < |bytes| && |memory| == DRAM0_LENGTH
    requires bytes[k] == memory[Wrap(offset % DRAM0_LENGTH + k, DRAM0_LENGTH)]
    ensures bytes[k] == memory[Wrap(offset + k, DRAM0_LENGTH)]
  {
    WrapDram(offset % DRAM0_LENGTH + k);
    WrapDram(offset + k);
  }

  /** Reads samples from any byte offset: sample j of the result is the sample 4j bytes on in
      the memory taken as a circle of 2^31 bytes. */
  method HwReadDramMemory(device: MemoryFile, offset: nat, samples: nat, env: Environment)
    returns (ok: bool, result: seq<Word>)
    requires device.Valid() && !device.dma.held && device.AllInWindow()
    requires device.length == DRAM0_LENGTH
    modifies device`fPos, device.dma, device.dma.buffer
    ensures device.Valid() && !device.dma.held && device.AllInWindow()
    ensures |result| == samples
    ensures Benign(env) ==> ok
    ensures ok ==> forall j :: 0 <= j < samples ==>
              result[j] == SampleAt(device.Contents(), offset + 4 * j)
  {
    var bytes := new byte[4 * samples](_ => 0);
    ok := ReadDmaMemory(device, offset % DRAM0_LENGTH, 4 * samples, bytes, env);
    result := Words(bytes[..]);
    if ok {
      WordsAreSamples(bytes[..], device.Contents(), offset);
    }
  }
}
