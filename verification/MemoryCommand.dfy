/** The memory read command: admission, header and the outer read loop, from the trigger
    address down to the circular memory device. */
module MemoryCommand {
  import opened Common
  import opened MemoryDevice
  import opened MemoryReply
  import opened MemorySender

  datatype Format = INT16 | FLOAT32 | COMPLEX64

  /** A parsed request.  The tune is already in hardware units of 2^-48 turns per bunch. */
  datatype Args = Args(count: Word, framed: bool, offset: int, channel: int, bunch: int,
                       decimation: Word, tune: nat, format: Format)
  {
    /** What the parser guarantees. */
    predicate Parsed(bunches: nat) {
      && -1 <= channel < 2
      && -1 <= bunch < bunches
      && decimation > 0
      && (format == INT16 ==> decimation == 1)
      && (bunch >= 0 ==> format == INT16)
    }

    function Kind(): Kind
      requires bunch >= -1
    {
      if bunch >= 0 then Single(bunch)
      else match format
        case INT16 => Plain
        case FLOAT32 => Mean(decimation)
        case COMPLEX64 => Shifted(decimation, tune)
    }

    /** How many units of its kind the request asks for. */
    function Units(bunches: nat): nat {
      if bunch < 0 && format == INT16 then count * bunches else count
    }
  }

  function MakeChannels(channel: int, d0: nat, d1: nat): Channels {
    if channel == 0 then Channels(d0, d1, true, false)
    else if channel == 1 then Channels(d0, d1, false, true)
    else Channels(d0, d1, true, true)
  }

  // ------------------------------------------------------------------------------------
  // Where reading starts

  function Signed32(n: Word): int {
    if n < WORD32 / 2 then n else n - WORD32
  }

  /** The start address: a 32-bit signed turn offset added to the trigger address in 64 bits. */
  function DramOffset(origin: Word, turns: int, bunches: nat): nat {
    (origin + Signed32((turns * bunches * 4) % WORD32)) % WORD64
  }

  /** Whatever wraps, the address is exact on the circular memory. */
  lemma DramOffsetExact(origin: Word, turns: int, bunches: nat)
    ensures DramOffset(origin, turns, bunches) % DRAM0_LENGTH ==
            (origin + turns * bunches * 4) % DRAM0_LENGTH
  {
    WrappedAddress(origin, turns * bunches * 4);
  }

  lemma WrappedAddress(origin: Word, p: int)
    ensures (origin + Signed32(p % WORD32)) % WORD64 % DRAM0_LENGTH == (origin + p) % DRAM0_LENGTH
  {
    var q := Signed32(p % WORD32);
    Cut64(origin + q);
    Shift32(origin + p, if p % WORD32 < WORD32 / 2 then p / WORD32 else p / WORD32 + 1);
  }

  lemma Cut64(n: int)
    ensures n % WORD64 % DRAM0_LENGTH == n % DRAM0_LENGTH
  {
  }

  lemma Shift32(n: int, k: int)
    ensures (n - WORD32 * k) % DRAM0_LENGTH == n % DRAM0_LENGTH
  {
  }

  /** The memory as a function of the sample number counted from the requested turn. */
  function FromTrigger(contents: seq<byte>, origin: Word, turns: int, bunches: nat): nat -> Word
    requires |contents| > 0
  {
    (p: nat) => SampleAt(contents, (origin + turns * bunches * 4) % DRAM0_LENGTH + 4 * p)
  }

  /** Addresses that agree on the circle read the same samples. */
  lemma SameSample(contents: seq<byte>, a: nat, b: nat)
    requires |contents| == DRAM0_LENGTH && a % DRAM0_LENGTH == b % DRAM0_LENGTH
    ensures SampleAt(contents, a) == SampleAt(contents, b)
  {
    hide LittleEndian, Wrap;
    SameAfter(a, b, 1);
    SameAfter(a, b, 2);
    SameAfter(a, b, 3);
    SamePlace(a, b);
    SamePlace(a + 1, b + 1);
    SamePlace(a + 2, b + 2);
    SamePlace(a + 3, b + 3);
  }

  lemma SameAfter(a: nat, b: nat, i: nat)
    requires a % DRAM0_LENGTH == b % DRAM0_LENGTH
    ensures (a + i) % DRAM0_LENGTH == (b + i) % DRAM0_LENGTH
  {
  }

  lemma SamePlace(a: nat, b: nat)
    requires a % DRAM0_LENGTH == b % DRAM0_LENGTH
    ensures Wrap(a, DRAM0_LENGTH) == Wrap(b, DRAM0_LENGTH)
  {
    WrapDram(a);
    WrapDram(b);
  }

  lemma AddressAt(offset: nat, start: nat, pos: nat, j: nat)
    requires offset % DRAM0_LENGTH == (start + 4 * pos) % DRAM0_LENGTH
    ensures (offset + 4 * j) % DRAM0_LENGTH == (start + 4 * (pos + j)) % DRAM0_LENGTH
  {
  }

  // ------------------------------------------------------------------------------------
  // Admission

  /** How many whole units of the reply are read at a time, leaving room for the extra turn
      that delay compensation looks ahead into. */
  function BufferUnits(k: Kind, bunches: nat): nat
    requires k.Step(bunches) > 0 && bunches <= MAX_BUNCHES
  {
    PiecesIn(READ_BUFFER_BYTES / 4 - bunches, k.Step(bunches))
  }

  function PiecesIn(size: nat, piece: nat): nat
    requires piece > 0
  {
    size / piece
  }

  /** The read buffer size in samples, or nothing if the decimation is too large. */
  datatype BufferSize = TooLarge | Buffer(size: nat)

  method ComputeReadBufferSize(args: Args, bunches: nat) returns (r: BufferSize)
    requires 0 < bunches <= MAX_BUNCHES && args.Parsed(bunches)
    ensures args.Kind().Step(bunches) > 0
    ensures r.TooLarge? <==> BufferUnits(args.Kind(), bunches) == 0
    ensures r.Buffer? ==> r.size == Span(BufferUnits(args.Kind(), bunches), args.Kind().Step(bunches))
    ensures r.Buffer? ==> r.size + bunches <= READ_BUFFER_BYTES / 4
  {
    hide Span, PiecesIn;
    var size := READ_BUFFER_BYTES / 4 - bunches;
    if args.bunch >= 0 {
      WholePieces(size, bunches);
      size := (size / bunches) * bunches;
      r := Buffer(size);
    } else if args.format != INT16 {
      var sampleSize := args.decimation * bunches;
      ProductBound(bunches, args.decimation);
      WholePieces(size, sampleSize);
      size := (size / sampleSize) * sampleSize;
      r := if size > 0 then Buffer(size) else TooLarge;
    } else {
      WholePieces(size, 1);
      r := Buffer(size);
    }
  }

  lemma WholePieces(size: nat, piece: nat)
    requires piece > 0
    ensures Span(PiecesIn(size, piece), piece) == (size / piece) * piece <= size
    ensures (size / piece) * piece > 0 <==> PiecesIn(size, piece) > 0
    ensures PiecesIn(size, piece) > 0 <==> piece <= size
    ensures piece == 1 ==> Span(PiecesIn(size, piece), piece) == size
  {
    var n := size / piece;
    assert size == piece * n + size % piece;
    if n > 0 {
      assert piece * n >= piece;
    }
  }

  /** The count guard divides twice; it admits exactly the requests whose 32-bit product of
      counts is exact and within the memory. */
  lemma GuardExact(count: nat, bunches: nat, decimation: nat)
    requires bunches > 0 && decimation > 0
    ensures count <= DRAM0_LENGTH / 4 / bunches / decimation <==>
            count * bunches * decimation <= DRAM0_LENGTH / 4
  {
    var words := DRAM0_LENGTH / 4;
    DivideBound(words / bunches, decimation, count);
    DivideBound(words, bunches, count * decimation);
    assert count * bunches * decimation == (count * decimation) * bunches;
  }

  lemma DivideBound(a: nat, d: nat, n: nat)
    requires d > 0
    ensures n <= a / d <==> n * d <= a
  {
    var q := a / d;
    assert a == q * d + a % d;
    if n <= q {
      assert n * d <= q * d;
    } else {
      assert n * d >= (q + 1) * d == q * d + d;
    }
  }

  // ------------------------------------------------------------------------------------
  // The read loop

  /** A read buffer seen as the part of a sample function from number pos on. */
  ghost function FromBuffer(buf: seq<Word>, pos: nat): nat -> Word {
    (p: nat) => if pos <= p < pos + |buf| then buf[p - pos] else 0
  }

  predicate OfKind(k: Kind, s: Sample) {
    match k
    case Plain => s.I16?
    case Single(_) => s.I16?
    case Mean(_) => s.F32?
    case Shifted(_, _) => s.C64?
  }

  lemma {:induction false} ReplyOfKind(k: Kind, f: nat -> Word, ch: Channels, bunches: nat, lo: nat, n: nat)
    requires k.Valid(bunches) && (ch.ch0 || ch.ch1)
    ensures forall i :: 0 <= i < |Reply(k, f, ch, bunches, lo, n)| ==>
              OfKind(k, Reply(k, f, ch, bunches, lo, n)[i])
  {
    if n > 0 {
      ReplyOfKind(k, f, ch, bunches, lo, n - 1);
      var unit := Unit(k, f, ch, bunches, lo + n - 1);
      assert forall i :: 0 <= i < |unit| ==> OfKind(k, unit[i]);
    }
  }

  /** What sending has produced so far: exact as long as every read succeeded, and of the
      right length in any case. */
  ghost predicate Sent(sent: seq<Sample>, ok: bool, k: Kind, f: nat -> Word, ch: Channels, bunches: nat, n: nat)
    requires k.Valid(bunches) && (ch.ch0 || ch.ch1)
  {
    && |sent| == Span(n, k.Size(bunches, ch))
    && (forall i :: 0 <= i < |sent| ==> OfKind(k, sent[i]))
    && (ok ==> sent == Reply(k, f, ch, bunches, 0, n))
  }

  lemma SentNothing(k: Kind, f: nat -> Word, ch: Channels, bunches: nat)
    requires k.Valid(bunches) && (ch.ch0 || ch.ch1)
    ensures Sent([], true, k, f, ch, bunches, 0)
  {
  }

  lemma FromBufferMatches(buf: seq<Word>, pos: nat)
    ensures Matches(buf, FromBuffer(buf, pos), pos)
  {
  }

  lemma SentNext(sent: seq<Sample>, more: seq<Sample>, ok: bool, okMore: bool, k: Kind,
                 f: nat -> Word, g: nat -> Word, ch: Channels, bunches: nat, n: nat, m: nat)
    requires k.Valid(bunches) && (ch.ch0 || ch.ch1)
    requires Sent(sent, ok, k, f, ch, bunches, n)
    requires more == Reply(k, g, ch, bunches, n, m) && (okMore ==> g == f)
    ensures Sent(sent + more, ok && okMore, k, f, ch, bunches, n + m)
  {
    hide Reply;
    ReplyLength(k, g, ch, bunches, n, m);
    ReplyOfKind(k, g, ch, bunches, n, m);
    SpanSum(n, m, k.Size(bunches, ch));
    ReplySplit(k, f, ch, bunches, 0, n, m);
  }

  /** Sends units u to u + n out of a buffer that starts at unit u; the running angle of a
      frequency shift is carried over. */
  method SendChunk(sender: Sender, k: Kind, ch: Channels, readBuffer: seq<Word>, readSamples: nat,
                   fixup: seq<nat>, angle: nat,
                   ghost f: nat -> Word, ghost u: nat, ghost n: nat)
    returns (angle': nat)
    requires sender.Valid() && ch.Valid(sender.bunches) && k.Valid(sender.bunches)
    requires readSamples == Span(n, k.Step(sender.bunches))
    requires |readBuffer| == readSamples + sender.bunches
    requires Matches(readBuffer, f, Span(u, k.Step(sender.bunches)))
    requires k.Shifted? ==> sender.Fixup(ch, k.tune, fixup) &&
                            angle == AngleAt(sender.bunches, k.tune, u * k.decimation)
    modifies sender`out
    ensures sender.out == old(sender.out) + Reply(k, f, ch, sender.bunches, u, n)
    ensures k.Shifted? ==> angle' == AngleAt(sender.bunches, k.tune, (u + n) * k.decimation)
  {
    hide Reply, AngleAt;
    var bunches := sender.bunches;
    angle' := angle;
    match k {
      case Plain =>
        sender.SendInt16(ch, readBuffer, readSamples, f, u);
      case Single(bunch) =>
        WholeTurns(n, bunches);
        sender.SendBunch(ch, bunch, readBuffer, readSamples / bunches, f, u * bunches, u);
      case Mean(decimation) =>
        WholeTurns(n, decimation * bunches);
        sender.SendFloat32(ch, decimation, readBuffer, readSamples / (decimation * bunches),
                           f, Span(u, decimation * bunches), u);
      case Shifted(decimation, tune) =>
        WholeTurns(n, decimation * bunches);
        angle' := sender.SendComplex64(ch, decimation, tune, fixup, angle, readBuffer,
                                       readSamples / (decimation * bunches),
                                       f, Span(u, decimation * bunches), u);
    }
  }

  lemma WholeTurns(n: nat, size: nat)
    requires size > 0
    ensures Span(n, size) / size == n
  {
    DivideBound(Span(n, size), size, n);
    DivideBound(Span(n, size), size, n + 1);
    assert (n + 1) * size > n * size;
  }

  /** Reads one buffer, with the extra turn, and sends it: the samples of the memory if the
      read succeeded, and otherwise as many samples of whatever is in the buffer. */
  method SendBuffer(sender: Sender, device: MemoryFile, k: Kind, ch: Channels, origin: Word, turns: int,
                    offset: nat, readSamples: nat, fixup: seq<nat>, angle: nat, env: Environment,
                    ghost u: nat, ghost n: nat)
    returns (good: bool, angle': nat, ghost g: nat -> Word)
    requires sender.Valid() && ch.Valid(sender.bunches) && k.Valid(sender.bunches)
    requires device.Valid() && !device.dma.held && device.AllInWindow() && device.length == DRAM0_LENGTH
    requires readSamples == Span(n, k.Step(sender.bunches))
    requires PointsAt(offset, origin, turns, sender.bunches, Span(u, k.Step(sender.bunches)))
    requires k.Shifted? ==> sender.Fixup(ch, k.tune, fixup) &&
                            angle == AngleAt(sender.bunches, k.tune, u * k.decimation)
    modifies sender`out, device`fPos, device.dma, device.dma.buffer
    ensures device.Valid() && !device.dma.held && device.AllInWindow()
    ensures Benign(env) ==> good
    ensures good ==> g == FromTrigger(device.Contents(), origin, turns, sender.bunches)
    ensures sender.out == old(sender.out) + Reply(k, g, ch, sender.bunches, u, n)
    ensures k.Shifted? ==> angle' == AngleAt(sender.bunches, k.tune, (u + n) * k.decimation)
  {
    hide Reply, Span, AngleAt, SampleAt, Matches, FromTrigger, FromBuffer, PointsAt;
    ghost var pos := Span(u, k.Step(sender.bunches));
    var buf;
    good, buf := HwReadDramMemory(device, offset, readSamples + sender.bunches, env);
    if good {
      g := FromTrigger(device.Contents(), origin, turns, sender.bunches);
      BufferMatches(buf, device.Contents(), origin, turns, sender.bunches, offset, pos);
    } else {
      g := FromBuffer(buf, pos);
      FromBufferMatches(buf, pos);
    }
    angle' := SendChunk(sender, k, ch, buf, readSamples, fixup, angle, g, u, n);
  }

  /** Reads the memory a buffer at a time and sends each buffer.  The reply starts at the
      requested turn of the memory taken as a circle; env says how each buffer's reads fare. */
  method SendMemoryData(sender: Sender, device: MemoryFile, args: Args, readBufferSize: nat, ch: Channels,
                        origin: Word, env: nat -> Environment)
    returns (ok: bool)
    requires sender.Valid() && ch.Valid(sender.bunches) && args.Parsed(sender.bunches)
    requires device.Valid() && !device.dma.held && device.AllInWindow() && device.length == DRAM0_LENGTH
    requires args.count * sender.bunches * args.decimation <= DRAM0_LENGTH / 4
    requires args.Kind().Step(sender.bunches) > 0 && BufferUnits(args.Kind(), sender.bunches) > 0
    requires readBufferSize == Span(BufferUnits(args.Kind(), sender.bunches), args.Kind().Step(sender.bunches))
    modifies sender`out, device`fPos, device.dma, device.dma.buffer
    ensures device.Valid() && !device.dma.held && device.AllInWindow()
    ensures (forall i :: Benign(env(i))) ==> ok
    ensures old(sender.out) <= sender.out
    ensures Sent(sender.out[|old(sender.out)|..], ok, args.Kind(),
                 FromTrigger(device.Contents(), origin, args.offset, sender.bunches),
                 ch, sender.bunches, args.Units(sender.bunches))
  {
    hide Reply, Span, AngleAt, BufferUnits, SampleAt, Sent, Matches, FromTrigger, FromBuffer, DramOffset, PointsAt, Unit, Min;
    var bunches := sender.bunches;
    var k := args.Kind();
    ghost var step := k.Step(bunches);
    ghost var units := args.Units(bunches);
    ghost var f := FromTrigger(device.Contents(), origin, args.offset, bunches);
    var samples: nat := ((args.count * bunches) % WORD32 * args.decimation) % WORD32;
    SamplesExact(args, bunches);
    var offset: nat := DramOffset(origin, args.offset, bunches);
    PointsAtStart(origin, args.offset, bunches);
    var fixup := [];
    if k.Shifted? {
      fixup := sender.PrepareTuneDecimate(ch, k.tune);
    }
    var angle: nat := 0;
    var turn: nat := 0;
    ghost var u: nat := 0;
    ghost var pos: nat := 0;
    ok := true;
    AngleZero(bunches, args.tune);
    SpanSum(0, 0, step);
    SpanSum(0, 0, k.Size(bunches, ch));
    SentNothing(k, f, ch, bunches);
    ghost var sent := [];
    assert sender.out == old(sender.out) + sent;
    while samples > 0
      invariant device.Valid() && !device.dma.held && device.AllInWindow()
      invariant (forall i :: Benign(env(i))) ==> ok
      invariant u <= units && pos == Span(u, step) && samples == Span(units - u, step)
      invariant PointsAt(offset, origin, args.offset, bunches, pos)
      invariant k.Shifted? ==> sender.Fixup(ch, k.tune, fixup) &&
                               angle == AngleAt(bunches, k.tune, u * k.decimation)
      invariant sender.out == old(sender.out) + sent
      invariant Sent(sent, ok, k, f, ch, bunches, u)
    {
      var readSamples := Min(samples, readBufferSize);
      ghost var n := Min(units - u, BufferUnits(k, bunches));
      NextUnits(units, u, BufferUnits(k, bunches), step);
      var good;
      ghost var g;
      good, angle, g := SendBuffer(sender, device, k, ch, origin, args.offset, offset, readSamples,
                                   fixup, angle, env(turn), u, n);
      turn := turn + 1;
      ghost var more := Reply(k, g, ch, bunches, u, n);
      SentNext(sent, more, ok, good, k, f, g, ch, bunches, u, n);
      sent := sent + more;
      ok := ok && good;
      AdvanceOffset(offset, origin, args.offset, bunches, pos, readSamples);
      offset := (offset + readSamples * 4) % WORD64;
      samples := samples - readSamples;
      u := u + n;
      pos := pos + readSamples;
    }
    SpanZero(units - u, step);
    assert sender.out[|old(sender.out)|..] == sent;
  }

  function Start(origin: Word, turns: int, bunches: nat): nat {
    (origin + turns * bunches * 4) % DRAM0_LENGTH
  }

  /** The offset is that of sample number pos of the reply, on the circle of the memory. */
  predicate PointsAt(offset: nat, origin: Word, turns: int, bunches: nat, pos: nat) {
    offset % DRAM0_LENGTH == (Start(origin, turns, bunches) + 4 * pos) % DRAM0_LENGTH
  }

  lemma PointsAtStart(origin: Word, turns: int, bunches: nat)
    ensures PointsAt(DramOffset(origin, turns, bunches), origin, turns, bunches, 0)
  {
    DramOffsetExact(origin, turns, bunches);
  }

  /** The units of the next buffer, and of those after it. */
  lemma NextUnits(units: nat, u: nat, cap: nat, step: nat)
    requires step > 0 && u <= units && cap > 0
    ensures var n := Min(units - u, cap);
            && 0 <= n <= units - u
            && Min(Span(units - u, step), Span(cap, step)) == Span(n, step)
            && Span(u + n, step) == Span(u, step) + Span(n, step)
            && Span(units - (u + n), step) == Span(units - u, step) - Span(n, step)
            && (Span(units - u, step) > 0 ==> Span(n, step) > 0)
  {
    hide Span;
    var n := Min(units - u, cap);
    MinSpan(units - u, cap, step);
    SpanSum(u, n, step);
    SpanSum(n, units - u - n, step);
  }

  lemma AngleZero(bunches: nat, tune: nat)
    ensures AngleAt(bunches, tune, 0) == 0
  {
  }

  lemma SpanZero(n: nat, size: nat)
    requires size > 0 && Span(n, size) == 0
    ensures n == 0
  {
  }

  lemma MinSpan(a: nat, b: nat, size: nat)
    requires size > 0
    ensures Min(Span(a, size), Span(b, size)) == Span(Min(a, b), size)
    ensures a > 0 && b > 0 ==> Span(Min(a, b), size) > 0
    ensures Span(a, size) > 0 ==> a > 0
  {
    if a <= b {
      assert a * size <= b * size;
    } else {
      assert b * size <= a * size;
    }
    if Min(a, b) > 0 {
      assert Min(a, b) * size >= size;
    }
  }

  lemma AdvanceOffset(offset: nat, origin: Word, turns: int, bunches: nat, pos: nat, readSamples: nat)
    requires PointsAt(offset, origin, turns, bunches, pos)
    ensures PointsAt((offset + readSamples * 4) % WORD64, origin, turns, bunches, pos + readSamples)
  {
    AddressAt(offset, Start(origin, turns, bunches), pos, readSamples);
    Cut64(offset + readSamples * 4);
  }

  lemma BufferMatches(buf: seq<Word>, contents: seq<byte>, origin: Word, turns: int, bunches: nat,
                      offset: nat, pos: nat)
    requires |contents| == DRAM0_LENGTH
    requires PointsAt(offset, origin, turns, bunches, pos)
    requires forall j :: 0 <= j < |buf| ==> buf[j] == SampleAt(contents, offset + 4 * j)
    ensures Matches(buf, FromTrigger(contents, origin, turns, bunches), pos)
  {
    hide SampleAt;
    var f := FromTrigger(contents, origin, turns, bunches);
    forall j | 0 <= j < |buf| ensures buf[j] == f(pos + j) {
      AddressAt(offset, Start(origin, turns, bunches), pos, j);
      SameSample(contents, offset + 4 * j, Start(origin, turns, bunches) + 4 * (pos + j));
    }
  }

  /** Under the guard the 32-bit product is the number of samples asked for. */
  lemma SamplesExact(args: Args, bunches: nat)
    requires bunches > 0 && args.Parsed(bunches)
    requires args.count * bunches * args.decimation <= DRAM0_LENGTH / 4
    ensures ((args.count * bunches) % WORD32 * args.decimation) % WORD32 ==
            Span(args.Units(bunches), args.Kind().Step(bunches))
    ensures (args.count * bunches) % WORD32 == args.count * bunches
  {
    var turns := args.count * bunches;
    ProductBound(turns, args.decimation);
    ProductOrder(args.count, bunches, args.decimation);
  }

  lemma ProductBound(a: nat, b: nat)
    requires b > 0
    ensures a <= a * b
  {
  }

  lemma ProductOrder(count: nat, bunches: nat, decimation: nat)
    ensures count * bunches * decimation == Span(count, decimation * bunches)
    ensures decimation == 1 ==> count * bunches * decimation == Span(count * bunches, 1) == Span(count, bunches)
  {
  }

  // ------------------------------------------------------------------------------------
  // The command

  /** The header sent before the data when the request asks for it. */
  datatype Header = Header(samples: Word, channels: nat, format: Format)

  function MemoryInfo(args: Args, bunches: nat): Header {
    Header(if args.bunch >= 0 then args.count else (args.count * bunches) % WORD32,
           if args.channel >= 0 then 1 else 2,
           args.format)
  }

  /** The header counts exactly the values that follow it. */
  lemma HeaderExact(args: Args, ch: Channels, bunches: nat)
    requires bunches > 0 && args.Parsed(bunches) && (ch.ch0 || ch.ch1)
    requires ch.Count() == if args.channel >= 0 then 1 else 2
    requires args.count * bunches * args.decimation <= DRAM0_LENGTH / 4
    ensures MemoryInfo(args, bunches).samples * MemoryInfo(args, bunches).channels ==
            Span(args.Units(bunches), args.Kind().Size(bunches, ch))
  {
    SamplesExact(args, bunches);
    assert args.count * bunches * ch.Count() == args.count * (bunches * ch.Count());
  }

  // ------------------------------------------------------------------------------------
  // What an answer holds, value by value

  /** Two bytes of the memory as a signed 16-bit number, the low byte first, at an address on the
      circle. */
  function Half(memory: seq<byte>, address: int): int
    requires |memory| > 0
  {
    var low: nat, high: nat := memory[address % |memory|], memory[(address + 1) % |memory|];
    var n := low + 0x100 * high;
    if n < 0x8000 then n else n - 0x1_0000
  }

  /** What a channel holds for a bunch, counted from the turn asked for: each word of the memory
      has channel 0 in its low half, and channel 1 in its high half, each of them later by its
      own delay. */
  function Raw(memory: seq<byte>, origin: Word, turns: int, bunches: nat, d0: nat, d1: nat, channel: nat, p: nat): int
    requires |memory| > 0
  {
    if channel == 0 then Half(memory, origin + 4 * (turns * bunches + p + d0))
    else Half(memory, origin + 4 * (turns * bunches + p + d1) + 2)
  }

  function AddUp(n: nat, g: nat -> int): int {
    if n == 0 then 0 else AddUp(n - 1, g) + g(n - 1)
  }

  /** Where a bunch of raw turn first + r stands. */
  function Place(bunches: nat, bunch: nat, first: nat, r: nat): nat {
    (first + r) * bunches + bunch
  }

  /** The mean of a bunch over n turns. */
  ghost predicate IsMean(v: Sample, raw: nat -> int, bunches: nat, bunch: nat, first: nat, n: nat)
    requires n > 0
  {
    v == F32(AddUp(n, (r: nat) => raw(Place(bunches, bunch, first, r))) as real / n as real)
  }

  /** A bunch in each of n turns, turned by a phase that grows by the tune from bunch to bunch. */
  ghost predicate IsTurnedSum(v: Sample, raw: nat -> int, bunches: nat, bunch: nat, first: nat, n: nat, tune: nat) {
    && v.C64? && v.divisor == |v.terms| == n
    && forall r :: 0 <= r < n ==>
         v.terms[r] == Term((Place(bunches, bunch, first, r) * tune) % 0x1_0000_0000_0000,
                            raw(Place(bunches, bunch, first, r)))
  }

  /** Value j of the answer to a request.  A single channel is sent alone, and both in turn; a
      single bunch is sent once a turn, and all bunches one after the other.  The other formats
      take as many turns together as the request says: their mean, or all of them, each turned
      by its phase. */
  ghost predicate AnswerValue(args: Args, memory: seq<byte>, origin: Word, bunches: nat, d0: nat, d1: nat, j: nat, v: Sample)
    requires |memory| > 0 && bunches > 0 && args.decimation > 0
  {
    var count := if args.channel == -1 then 2 else 1;
    var channel: nat := if args.channel == -1 then j % 2 else if args.channel == 0 then 0 else 1;
    var raw := (p: nat) => Raw(memory, origin, args.offset, bunches, d0, d1, channel, p);
    var bunch: nat, turn: nat := j / count % bunches, j / count / bunches;
    if args.bunch >= 0 then v == I16(raw(Place(bunches, args.bunch, j / count, 0)))
    else match args.format
      case INT16 => v == I16(raw(j / count))
      case FLOAT32 => IsMean(v, raw, bunches, bunch, turn * args.decimation, args.decimation)
      case COMPLEX64 => IsTurnedSum(v, raw, bunches, bunch, turn * args.decimation, args.decimation, args.tune)
  }

  lemma HalvesOfWord(b0: byte, b1: byte, b2: byte, b3: byte)
    ensures LittleEndian(b0, b1, b2, b3) % 0x1_0000 == b0 + 0x100 * b1
    ensures LittleEndian(b0, b1, b2, b3) / 0x1_0000 == b2 + 0x100 * b3
  {
    var low, high := b0 + 0x100 * b1, b2 + 0x100 * b3;
    assert LittleEndian(b0, b1, b2, b3) == high * 0x1_0000 + low;
  }

  lemma CirclePlace(start: nat, address: int, i: nat)
    requires start == address % DRAM0_LENGTH
    ensures Wrap(start + i, DRAM0_LENGTH) == (address + i) % DRAM0_LENGTH
  {
    WrapDram(start + i);
    var q := address / DRAM0_LENGTH;
    assert address + i == start + i + DRAM0_LENGTH * q;
    PlaceMoved(start + i, q);
  }

  lemma PlaceMoved(n: int, q: int)
    ensures (n + DRAM0_LENGTH * q) % DRAM0_LENGTH == n % DRAM0_LENGTH
  {
  }

  /** The halves of a sample are those of the bytes of the memory. */
  lemma SampleHalves(memory: seq<byte>, origin: Word, turns: int, bunches: nat, p: nat)
    requires |memory| == DRAM0_LENGTH
    ensures Low(FromTrigger(memory, origin, turns, bunches)(p)) == Half(memory, origin + 4 * (turns * bunches + p))
    ensures High(FromTrigger(memory, origin, turns, bunches)(p)) == Half(memory, origin + 4 * (turns * bunches + p) + 2)
  {
    hide LittleEndian, Wrap;
    var start, base := (origin + turns * bunches * 4) % DRAM0_LENGTH, origin + turns * bunches * 4;
    assert origin + 4 * (turns * bunches + p) == base + 4 * p;
    CirclePlace(start, base, 4 * p);
    CirclePlace(start, base, 4 * p + 1);
    CirclePlace(start, base, 4 * p + 2);
    CirclePlace(start, base, 4 * p + 3);
    HalvesOfWord(memory[(base + 4 * p) % DRAM0_LENGTH], memory[(base + 4 * p + 1) % DRAM0_LENGTH],
                 memory[(base + 4 * p + 2) % DRAM0_LENGTH], memory[(base + 4 * p + 3) % DRAM0_LENGTH]);
  }

  /** What is picked from a sample: the value of the channel in turn. */
  lemma PickIsRaw(memory: seq<byte>, origin: Word, turns: int, bunches: nat, channel: int, d0: nat, d1: nat, p: nat, j: nat)
    requires |memory| == DRAM0_LENGTH && -1 <= channel < 2
    ensures var ch := MakeChannels(channel, d0, d1);
            Pick(FromTrigger(memory, origin, turns, bunches), ch, p, j) ==
            (if channel == -1 then Raw(memory, origin, turns, bunches, d0, d1, j % 2, p + j / 2)
             else Raw(memory, origin, turns, bunches, d0, d1, channel, p + j))
  {
    hide FromTrigger, Low, High, Half;
    var q := if channel == -1 then p + j / 2 else p + j;
    SampleHalves(memory, origin, turns, bunches, q + d0);
    SampleHalves(memory, origin, turns, bunches, q + d1);
  }

  /** Where a value of the reply stands in its unit. */
  lemma PlaceInReply(j: nat, size: nat, n: nat)
    requires size > 0 && j < n * size
    ensures j / size < n && j == j / size * size + j % size
  {
    DivideBound(j, size, n);
  }

  lemma {:induction false} ColumnIsRaw(f: nat -> Word, ch: Channels, bunches: nat, first: nat, n: nat, j: nat, g: nat -> int)
    requires ch.ch0 || ch.ch1
    requires forall r: nat :: r < n ==> TurnValue(f, ch, bunches, first + r, j) == g(r)
    ensures ColumnSum(f, ch, bunches, first, n, j) == AddUp(n, g)
  {
    if n > 0 {
      ColumnIsRaw(f, ch, bunches, first, n - 1, j, g);
      assert first + n - 1 == first + (n - 1);
    }
  }

  lemma {:induction false} TermsAt(f: nat -> Word, ch: Channels, bunches: nat, tune: nat, first: nat, n: nat, j: nat, r: nat)
    requires (ch.ch0 || ch.ch1) && r < n
    ensures |ColumnTerms(f, ch, bunches, tune, first, n, j)| == n
    ensures ColumnTerms(f, ch, bunches, tune, first, n, j)[r] ==
            Term(PhaseOf(bunches, tune, first + r, BunchOf(ch, j)), TurnValue(f, ch, bunches, first + r, j))
  {
    hide PhaseOf, TurnValue, BunchOf;
    assert first + n - 1 == first + (n - 1);
    if r < n - 1 {
      TermsAt(f, ch, bunches, tune, first, n - 1, j, r);
    } else {
      TermsCount(f, ch, bunches, tune, first, n - 1, j);
    }
  }

  lemma {:induction false} TermsCount(f: nat -> Word, ch: Channels, bunches: nat, tune: nat, first: nat, n: nat, j: nat)
    requires ch.ch0 || ch.ch1
    ensures |ColumnTerms(f, ch, bunches, tune, first, n, j)| == n
  {
    if n > 0 {
      TermsCount(f, ch, bunches, tune, first, n - 1, j);
    }
  }

  /** Turn i of n columns each for so many bunches. */
  lemma PlaceInTurn(j: nat, i: nat, jj: nat, bunches: nat, count: nat)
    requires bunches > 0 && (count == 1 || count == 2)
    requires j == i * (bunches * count) + jj && jj < bunches * count
    ensures j / count / bunches == i && j / count % bunches == jj / count
    ensures j % 2 == jj % 2 || count == 1
  {
    assert count == 2 ==> j == 2 * (i * bunches) + jj;
    assert j / count == i * bunches + jj / count;
    Quotient(j / count, i, jj / count, bunches);
  }

  lemma Quotient(n: nat, q: nat, r: nat, d: nat)
    requires d > 0 && n == q * d + r && r < d
    ensures n / d == q && n % d == r
  {
    DivideBound(n, d, q);
    DivideBound(n, d, q + 1);
    assert (q + 1) * d == q * d + d;
    assert n == d * (n / d) + n % d;
  }

  lemma ExtractIsPick(f: nat -> Word, ch: Channels, p: nat, j: nat)
    requires (ch.ch0 || ch.ch1) && j < ch.Count()
    ensures Tag(Extract(f, p, ch))[j] == I16(Pick(f, ch, p, j))
  {
  }

  lemma PlainValue(args: Args, memory: seq<byte>, origin: Word, bunches: nat, d0: nat, d1: nat, j: nat, units: nat)
    requires |memory| == DRAM0_LENGTH && bunches > 0 && args.Parsed(bunches) && args.format == INT16
    requires var ch := MakeChannels(args.channel, d0, d1); j < units * args.Kind().Size(bunches, ch)
    ensures var ch, f := MakeChannels(args.channel, d0, d1), FromTrigger(memory, origin, args.offset, bunches);
            && j < |Reply(args.Kind(), f, ch, bunches, 0, units)|
            && AnswerValue(args, memory, origin, bunches, d0, d1, j, Reply(args.Kind(), f, ch, bunches, 0, units)[j])
  {
    hide Reply, FromTrigger, Raw, Pick, Extract, Tag;
    var ch, f := MakeChannels(args.channel, d0, d1), FromTrigger(memory, origin, args.offset, bunches);
    var n := ch.Count();
    var i, jj := j / n, j % n;
    PlaceInReply(j, n, units);
    ReplyAt(args.Kind(), f, ch, bunches, 0, units, i, jj);
    var p := if args.bunch >= 0 then i * bunches + args.bunch else i;
    ExtractIsPick(f, ch, p, jj);
    PickIsRaw(memory, origin, args.offset, bunches, args.channel, d0, d1, p, jj);
    assert (i + 0) * bunches == i * bunches;
  }

  /** What a column holds in one turn. */
  lemma TurnIsRaw(args: Args, memory: seq<byte>, origin: Word, bunches: nat, d0: nat, d1: nat, t: nat, j: nat, channel: nat)
    requires |memory| == DRAM0_LENGTH && -1 <= args.channel < 2
    requires channel == if args.channel == -1 then j % 2 else args.channel
    ensures var ch := MakeChannels(args.channel, d0, d1);
            TurnValue(FromTrigger(memory, origin, args.offset, bunches), ch, bunches, t, j) ==
            Raw(memory, origin, args.offset, bunches, d0, d1, channel, t * bunches + j / ch.Count())
  {
    hide FromTrigger, Raw, Pick;
    PickIsRaw(memory, origin, args.offset, bunches, args.channel, d0, d1, t * bunches, j);
  }

  lemma MeanOfColumn(f: nat -> Word, ch: Channels, bunches: nat, bunch: nat, first: nat, n: nat, j: nat, raw: nat -> int)
    requires (ch.ch0 || ch.ch1) && n > 0
    requires forall r: nat :: r < n ==> TurnValue(f, ch, bunches, first + r, j) == raw(Place(bunches, bunch, first, r))
    ensures IsMean(F32(ColumnSum(f, ch, bunches, first, n, j) as real / n as real), raw, bunches, bunch, first, n)
  {
    hide TurnValue, ColumnSum, AddUp, Place;
    ColumnIsRaw(f, ch, bunches, first, n, j, (r: nat) => raw(Place(bunches, bunch, first, r)));
  }

  lemma TermsOfColumn(f: nat -> Word, ch: Channels, bunches: nat, first: nat, n: nat, tune: nat, j: nat, raw: nat -> int)
    requires ch.ch0 || ch.ch1
    requires forall r: nat :: r < n ==>
               TurnValue(f, ch, bunches, first + r, j) == raw(Place(bunches, BunchOf(ch, j), first, r))
    ensures IsTurnedSum(C64(ColumnTerms(f, ch, bunches, tune, first, n, j), n), raw, bunches, BunchOf(ch, j), first, n, tune)
  {
    hide TurnValue, ColumnTerms, BunchOf;
    TermsCount(f, ch, bunches, tune, first, n, j);
    forall r: nat | r < n
      ensures ColumnTerms(f, ch, bunches, tune, first, n, j)[r] ==
              Term((Place(bunches, BunchOf(ch, j), first, r) * tune) % PHASE, raw(Place(bunches, BunchOf(ch, j), first, r)))
    {
      TermsAt(f, ch, bunches, tune, first, n, j, r);
    }
  }

  /** The unit of a decimated turn, out of the columns of its raw turns. */
  ghost predicate UnitValue(args: Args, memory: seq<byte>, origin: Word, bunches: nat, d0: nat, d1: nat,
                            turn: nat, bunch: nat, channel: nat, v: Sample)
    requires |memory| > 0 && args.decimation > 0
  {
    var raw := (p: nat) => Raw(memory, origin, args.offset, bunches, d0, d1, channel, p);
    if args.format == FLOAT32 then IsMean(v, raw, bunches, bunch, turn * args.decimation, args.decimation)
    else IsTurnedSum(v, raw, bunches, bunch, turn * args.decimation, args.decimation, args.tune)
  }

  lemma UnitIsExact(args: Args, memory: seq<byte>, origin: Word, bunches: nat, d0: nat, d1: nat, i: nat, jj: nat, channel: nat)
    requires |memory| == DRAM0_LENGTH && args.Parsed(bunches) && args.format != INT16
    requires channel == if args.channel == -1 then jj % 2 else args.channel
    requires var ch := MakeChannels(args.channel, d0, d1); jj < bunches * ch.Count()
    ensures var ch, f := MakeChannels(args.channel, d0, d1), FromTrigger(memory, origin, args.offset, bunches);
            UnitValue(args, memory, origin, bunches, d0, d1, i, jj / ch.Count(), channel,
                      Unit(args.Kind(), f, ch, bunches, i)[jj])
  {
    hide FromTrigger, Raw, TurnValue, ColumnSum, ColumnTerms, Unit, IsMean, IsTurnedSum, Place;
    var ch, f := MakeChannels(args.channel, d0, d1), FromTrigger(memory, origin, args.offset, bunches);
    var d: nat, first := args.decimation, i * args.decimation;
    var raw := (p: nat) => Raw(memory, origin, args.offset, bunches, d0, d1, channel, p);
    ColumnsAreRaw(args, memory, origin, bunches, d0, d1, first, jj, channel);
    if args.format == FLOAT32 {
      MeanUnit(d, f, ch, bunches, i);
      MeanOfColumn(f, ch, bunches, jj / ch.Count(), first, d, jj, raw);
    } else {
      ShiftedUnit(d, args.tune, f, ch, bunches, i);
      assert BunchOf(ch, jj) == jj / ch.Count();
      TermsOfColumn(f, ch, bunches, first, d, args.tune, jj, raw);
    }
  }

  lemma UnitAnswers(args: Args, memory: seq<byte>, origin: Word, bunches: nat, d0: nat, d1: nat, j: nat,
                    turn: nat, bunch: nat, channel: nat, v: Sample)
    requires |memory| > 0 && bunches > 0 && args.Parsed(bunches) && args.format != INT16
    requires channel == if args.channel == -1 then j % 2 else args.channel
    requires var count := if args.channel == -1 then 2 else 1;
             j / count / bunches == turn && j / count % bunches == bunch
    requires UnitValue(args, memory, origin, bunches, d0, d1, turn, bunch, channel, v)
    ensures AnswerValue(args, memory, origin, bunches, d0, d1, j, v)
  {
    hide Raw, IsMean, IsTurnedSum;
  }

  /** A decimated value of the reply. */
  lemma DecimatedValue(args: Args, memory: seq<byte>, origin: Word, bunches: nat, d0: nat, d1: nat, j: nat, units: nat)
    requires |memory| == DRAM0_LENGTH && bunches > 0 && args.Parsed(bunches) && args.format != INT16
    requires var ch := MakeChannels(args.channel, d0, d1); j < units * args.Kind().Size(bunches, ch)
    ensures var ch, f := MakeChannels(args.channel, d0, d1), FromTrigger(memory, origin, args.offset, bunches);
            && j < |Reply(args.Kind(), f, ch, bunches, 0, units)|
            && AnswerValue(args, memory, origin, bunches, d0, d1, j, Reply(args.Kind(), f, ch, bunches, 0, units)[j])
  {
    hide Reply, FromTrigger, Unit, UnitValue, AnswerValue;
    var ch, f := MakeChannels(args.channel, d0, d1), FromTrigger(memory, origin, args.offset, bunches);
    var i, jj := Located(j, bunches, ch.Count(), units);
    var channel: nat := if args.channel == -1 then j % 2 else args.channel;
    UnitIsExact(args, memory, origin, bunches, d0, d1, i, jj, channel);
    ValueOfUnit(args.Kind(), f, ch, bunches, units, i, jj, j);
    UnitAnswers(args, memory, origin, bunches, d0, d1, j, i, jj / ch.Count(), channel, Unit(args.Kind(), f, ch, bunches, i)[jj]);
  }

  lemma ValueOfUnit(k: Kind, f: nat -> Word, ch: Channels, bunches: nat, units: nat, i: nat, jj: nat, j: nat)
    requires k.Valid(bunches) && (ch.ch0 || ch.ch1)
    requires i < units && jj < k.Size(bunches, ch) && j == i * k.Size(bunches, ch) + jj
    ensures j < |Reply(k, f, ch, bunches, 0, units)| && Reply(k, f, ch, bunches, 0, units)[j] == Unit(k, f, ch, bunches, i)[jj]
  {
    hide Reply, Unit;
    ReplyAt(k, f, ch, bunches, 0, units, i, jj);
  }

  lemma Located(j: nat, bunches: nat, count: nat, units: nat) returns (i: nat, jj: nat)
    requires bunches > 0 && (count == 1 || count == 2) && j < units * (bunches * count)
    ensures i < units && jj < bunches * count && j == i * (bunches * count) + jj
    ensures j / count / bunches == i && j / count % bunches == jj / count
    ensures j % 2 == jj % 2 || count == 1
  {
    var size := bunches * count;
    i, jj := j / size, j % size;
    PlaceInReply(j, size, units);
    PlaceInTurn(j, i, jj, bunches, count);
  }

  lemma ColumnsAreRaw(args: Args, memory: seq<byte>, origin: Word, bunches: nat, d0: nat, d1: nat, first: nat, j: nat,
                      channel: nat)
    requires |memory| == DRAM0_LENGTH && -1 <= args.channel < 2
    requires channel == if args.channel == -1 then j % 2 else args.channel
    ensures var ch := MakeChannels(args.channel, d0, d1);
            forall r: nat ::
              TurnValue(FromTrigger(memory, origin, args.offset, bunches), ch, bunches, first + r, j) ==
              Raw(memory, origin, args.offset, bunches, d0, d1, channel, Place(bunches, j / ch.Count(), first, r))
  {
    hide FromTrigger, Raw, TurnValue;
    forall r: nat
      ensures var ch := MakeChannels(args.channel, d0, d1);
              TurnValue(FromTrigger(memory, origin, args.offset, bunches), ch, bunches, first + r, j) ==
              Raw(memory, origin, args.offset, bunches, d0, d1, channel, Place(bunches, j / ch.Count(), first, r))
    {
      TurnIsRaw(args, memory, origin, bunches, d0, d1, first + r, j, channel);
    }
  }

  /** Every value of an answer is what the request asks for. */
  lemma AnswerExact(args: Args, memory: seq<byte>, origin: Word, bunches: nat, d0: nat, d1: nat, sent: seq<Sample>)
    requires |memory| == DRAM0_LENGTH && bunches > 0 && args.Parsed(bunches)
    requires var ch := MakeChannels(args.channel, d0, d1);
             sent == Reply(args.Kind(), FromTrigger(memory, origin, args.offset, bunches), ch, bunches, 0, args.Units(bunches))
    ensures forall j :: 0 <= j < |sent| ==> AnswerValue(args, memory, origin, bunches, d0, d1, j, sent[j])
  {
    hide Reply, FromTrigger, AnswerValue;
    var ch, f := MakeChannels(args.channel, d0, d1), FromTrigger(memory, origin, args.offset, bunches);
    ReplyLength(args.Kind(), f, ch, bunches, 0, args.Units(bunches));
    forall j | 0 <= j < |sent| ensures AnswerValue(args, memory, origin, bunches, d0, d1, j, sent[j]) {
      if args.format == INT16 {
        PlainValue(args, memory, origin, bunches, d0, d1, j, args.Units(bunches));
      } else {
        DecimatedValue(args, memory, origin, bunches, d0, d1, j, args.Units(bunches));
      }
    }
  }

  /** Not one unit fits the read buffer if a decimated turn, with the turn after it, does not. */
  lemma NotOneUnit(args: Args, bunches: nat)
    requires 0 < bunches <= MAX_BUNCHES && args.Parsed(bunches)
    ensures args.Kind().Step(bunches) > 0
    ensures BufferUnits(args.Kind(), bunches) == 0 <==>
            args.bunch == -1 && args.format != INT16 && (args.decimation + 1) * bunches > READ_BUFFER_BYTES / 4
  {
    hide Span;
    ProductBound(bunches, args.decimation);
    assert (args.decimation + 1) * bunches == args.decimation * bunches + bunches;
    WholePieces(READ_BUFFER_BYTES / 4 - bunches, args.Kind().Step(bunches));
  }

  datatype Outcome =
    | TooManyTurns
    | DecimationTooLarge
    | LockRefused
    | Answered(header: Header, ok: bool)

  /** A whole memory command after parsing; granted says whether the readout lock was given.
      An answer holds as many values, all of the requested format, as its header announces,
      and they are the reply read off the circular memory whenever the device reads succeed. */
  method ProcessMemoryCommand(sender: Sender, device: MemoryFile, args: Args, d0: nat, d1: nat,
                              origin: Word, granted: bool, env: nat -> Environment)
    returns (r: Outcome)
    requires sender.Valid() && args.Parsed(sender.bunches) && d0 < sender.bunches && d1 < sender.bunches
    requires device.Valid() && !device.dma.held && device.AllInWindow() && device.length == DRAM0_LENGTH
    modifies sender`out, device`fPos, device.dma, device.dma.buffer
    ensures device.Valid() && !device.dma.held && device.AllInWindow()
    ensures args.Kind().Step(sender.bunches) > 0
    ensures r.TooManyTurns? <==> args.count * sender.bunches * args.decimation > DRAM0_LENGTH / 4
    ensures r.DecimationTooLarge? <==> !r.TooManyTurns? && BufferUnits(args.Kind(), sender.bunches) == 0
    ensures r.DecimationTooLarge? <==>
              !r.TooManyTurns? && args.bunch == -1 && args.format != INT16 &&
              (args.decimation + 1) * sender.bunches > READ_BUFFER_BYTES / 4
    ensures r.LockRefused? <==> !r.TooManyTurns? && !r.DecimationTooLarge? && !granted
    ensures !r.Answered? ==> sender.out == old(sender.out)
    ensures old(sender.out) <= sender.out
    ensures r.Answered? ==>
              var sent := sender.out[|old(sender.out)|..];
              && r.header.format == args.format
              && r.header.channels == (if args.channel == -1 then 2 else 1)
              && r.header.samples == (if args.bunch == -1 then args.count * sender.bunches else args.count)
              && |sent| == r.header.samples * r.header.channels
              && (forall i :: 0 <= i < |sent| ==>
                    if args.format == INT16 then sent[i].I16? else if args.format == FLOAT32 then sent[i].F32? else sent[i].C64?)
              && (r.ok ==> sent == Reply(args.Kind(), FromTrigger(device.Contents(), origin, args.offset, sender.bunches),
                                         MakeChannels(args.channel, d0, d1), sender.bunches,
                                         0, args.Units(sender.bunches)))
              && (r.ok ==> forall j :: 0 <= j < |sent| ==>
                             AnswerValue(args, device.Contents(), origin, sender.bunches, d0, d1, j, sent[j]))
              && ((forall i :: Benign(env(i))) ==> r.ok)
  {
    hide Reply, Span, BufferUnits, FromTrigger, Benign, AnswerValue;
    var bunches := sender.bunches;
    GuardExact(args.count, bunches, args.decimation);
    NotOneUnit(args, bunches);
    var size := ComputeReadBufferSize(args, bunches);
    if args.count > DRAM0_LENGTH / 4 / bunches / args.decimation {
      r := TooManyTurns;
    } else if size.TooLarge? {
      r := DecimationTooLarge;
    } else if !granted {
      r := LockRefused;
    } else {
      var ch := MakeChannels(args.channel, d0, d1);
      HeaderExact(args, ch, bunches);
      SamplesExact(args, bunches);
      var ok := SendMemoryData(sender, device, args, size.size, ch, origin, env);
      r := Answered(MemoryInfo(args, bunches), ok);
      if ok {
        AnswerExact(args, device.Contents(), origin, bunches, d0, d1, sender.out[|old(sender.out)|..]);
      }
    }
  }
}
