/** The sequencer's frequency and time scales: an arbitrary window of the sequence of detector
    points, the separately written counter of its length, and the windows it is sent in. */
module Sequencer {
  import opened Common

  const MAX_SEQUENCER_COUNT := 7
  const SUPER_SEQ_STATES := 2048
  const MAX_CAPTURE_COUNT := 0x1_0000

  datatype Entry = Entry(startFreq: Long, deltaFreq: Long, dwellTime: Word, captureCount: Word,
                         holdoff: Word, stateHoldoff: Word, writeEnable: bool)
  {
    function Dwell(): nat {
      dwellTime + holdoff
    }

    function Duration(): nat {
      stateHoldoff + captureCount * Dwell()
    }

    function Captured(): nat {
      if writeEnable then captureCount else 0
    }
  }

  datatype Config = Config(entries: seq<Entry>, pc: nat, superCount: nat, superOffsets: seq<Long>) {
    /** The limits of the settings; no sequence of points within them is longer than 32 bits
        can count. */
    predicate Valid() {
      && pc <= |entries| == MAX_SEQUENCER_COUNT
      && superCount <= |superOffsets| == SUPER_SEQ_STATES
      && forall i :: 0 <= i < |entries| ==> entries[i].captureCount <= MAX_CAPTURE_COUNT
    }
  }

  /** One captured point: the frequency swept to and the time since the start. */
  datatype Point = Point(freq: Long, time: Word)

  // ------------------------------------------------------------------------------------
  // The sequence of points

  function FreqAt(e: Entry, superOffset: Long, i: nat): Long {
    (e.startFreq + superOffset + i * e.deltaFreq) % WORD64
  }

  function TimeAt(e: Entry, t: nat, i: nat): Word {
    (t + e.stateHoldoff + i * e.Dwell()) % WORD32
  }

  /** The first n points of a state entered at time t. */
  function StatePoints(e: Entry, superOffset: Long, t: nat, n: nat): (s: seq<Point>)
    ensures |s| == n
  {
    seq(n, i requires 0 <= i < n => Point(FreqAt(e, superOffset, i), TimeAt(e, t, i)))
  }

  /** Time spent, and points captured, in the states from the last down to state k. */
  function TimeAbove(c: Config, k: nat): nat
    requires c.Valid()
    decreases c.pc - k
  {
    if k >= c.pc then 0 else TimeAbove(c, k + 1) + c.entries[k].Duration()
  }

  function CountAbove(c: Config, k: nat): nat
    requires c.Valid()
    decreases c.pc - k
  {
    if k >= c.pc then 0 else CountAbove(c, k + 1) + c.entries[k].Captured()
  }

  /** The points of one pass from the last state down to state k, entered at time t. */
  function PointsAbove(c: Config, superOffset: Long, t: nat, k: nat): (s: seq<Point>)
    requires c.Valid()
    ensures |s| == CountAbove(c, k)
    decreases c.pc - k
  {
    if k >= c.pc then []
    else PointsAbove(c, superOffset, t, k + 1) +
         StatePoints(c.entries[k], superOffset, t + TimeAbove(c, k + 1), c.entries[k].Captured())
  }

  function TimeBefore(c: Config, super: nat): nat
    requires c.Valid()
  {
    if super == 0 then 0 else TimeBefore(c, super - 1) + TimeAbove(c, 0)
  }

  /** The points of the first passes of the super sequencer. */
  function Points(c: Config, super: nat): seq<Point>
    requires c.Valid() && super <= c.superCount
  {
    if super == 0 then []
    else Points(c, super - 1) + PointsAbove(c, c.superOffsets[super - 1], TimeBefore(c, super - 1), 0)
  }

  /** The running frequency after a state: a state that captures nothing leaves it alone. */
  function FreqAfter(e: Entry, superOffset: Long, f: Long): Long {
    if e.writeEnable then FreqAt(e, superOffset, e.captureCount) else f
  }

  function FreqAbove(c: Config, superOffset: Long, f: Long, k: nat): Long
    requires c.Valid()
    decreases c.pc - k
  {
    if k >= c.pc then f else FreqAfter(c.entries[k], superOffset, FreqAbove(c, superOffset, f, k + 1))
  }

  function EndFreq(c: Config, super: nat): Long
    requires c.Valid() && super <= c.superCount
  {
    if super == 0 then 0 else FreqAbove(c, c.superOffsets[super - 1], EndFreq(c, super - 1), 0)
  }

  function Total(c: Config): nat
    requires c.Valid()
  {
    |Points(c, c.superCount)|
  }

  /** Point k of the scale, which goes on for ever with the frequency and time that are
      reached after the last point. */
  function ScaleAt(c: Config, k: nat): Point
    requires c.Valid()
  {
    if k < Total(c) then Points(c, c.superCount)[k]
    else Point(EndFreq(c, c.superCount), TimeBefore(c, c.superCount) % WORD32)
  }

  // ------------------------------------------------------------------------------------
  // Closed form

  lemma {:induction false} PassesExact(c: Config, super: nat)
    requires c.Valid() && super <= c.superCount
    ensures |Points(c, super)| == super * CountAbove(c, 0)
    ensures TimeBefore(c, super) == super * TimeAbove(c, 0)
  {
    if super > 0 {
      PassesExact(c, super - 1);
      assert super * CountAbove(c, 0) == (super - 1) * CountAbove(c, 0) + CountAbove(c, 0);
      assert super * TimeAbove(c, 0) == (super - 1) * TimeAbove(c, 0) + TimeAbove(c, 0);
    }
  }

  lemma {:induction false} PointsPrefix(c: Config, super: nat, more: nat)
    requires c.Valid() && super <= more <= c.superCount
    ensures Points(c, super) <= Points(c, more)
    decreases more
  {
    if super < more {
      PointsPrefix(c, super, more - 1);
    }
  }

  lemma {:induction false} PassPrefix(c: Config, superOffset: Long, t: nat, k: nat, j: nat)
    requires c.Valid() && j <= k
    ensures PointsAbove(c, superOffset, t, k) <= PointsAbove(c, superOffset, t, j)
    decreases k - j
  {
    if j < k {
      PassPrefix(c, superOffset, t, k, j + 1);
    }
  }

  lemma IndexInto<T>(a: seq<T>, b: seq<T>, whole: seq<T>, q: nat)
    requires a + b <= whole && q < |b|
    ensures |a| + q < |whole| && whole[|a| + q] == b[q]
  {
  }

  lemma StateAt(c: Config, superOffset: Long, t: nat, k: nat, i: nat)
    requires c.Valid() && k < c.pc && i < c.entries[k].Captured()
    ensures CountAbove(c, k + 1) + i < CountAbove(c, 0)
    ensures PointsAbove(c, superOffset, t, 0)[CountAbove(c, k + 1) + i] ==
            Point(FreqAt(c.entries[k], superOffset, i), TimeAt(c.entries[k], t + TimeAbove(c, k + 1), i))
  {
    hide FreqAt, TimeAt, TimeAbove, Entry.Captured, PointsAbove, CountAbove, FreqAbove;
    AboveNext(c, superOffset, 0, t, k);
    PassPrefix(c, superOffset, t, k, 0);
    IndexInto(PointsAbove(c, superOffset, t, k + 1),
              StatePoints(c.entries[k], superOffset, t + TimeAbove(c, k + 1), c.entries[k].Captured()),
              PointsAbove(c, superOffset, t, 0), i);
  }

  lemma PassNext(c: Config, super: nat)
    requires c.Valid() && super < c.superCount
    ensures Points(c, super + 1) ==
            Points(c, super) + PointsAbove(c, c.superOffsets[super], TimeBefore(c, super), 0)
  {
  }

  lemma PassAt(c: Config, super: nat, q: nat)
    requires c.Valid() && super < c.superCount && q < CountAbove(c, 0)
    ensures |Points(c, super)| + q < Total(c)
    ensures ScaleAt(c, |Points(c, super)| + q) ==
            PointsAbove(c, c.superOffsets[super], TimeBefore(c, super), 0)[q]
  {
    hide Points, PointsAbove, TimeBefore, CountAbove, EndFreq;
    PassNext(c, super);
    PointsPrefix(c, super + 1, c.superCount);
    IndexInto(Points(c, super), PointsAbove(c, c.superOffsets[super], TimeBefore(c, super), 0),
              Points(c, c.superCount), q);
  }

  /** The numbers of a sequence added up. */
  function Sum(s: seq<nat>): nat {
    if s == [] then 0 else s[0] + Sum(s[1..])
  }

  function Lasts(before: nat, captures: nat, dwell: nat): nat {
    before + captures * dwell
  }

  /** How long each state lasts, and how many points it captures. */
  function Times(c: Config): seq<nat>
    requires c.Valid()
  {
    seq(c.pc, k requires 0 <= k < c.pc =>
      var e := c.entries[k]; Lasts(e.stateHoldoff, e.captureCount, e.dwellTime + e.holdoff))
  }

  function Captures(c: Config): seq<nat>
    requires c.Valid()
  {
    seq(c.pc, k requires 0 <= k < c.pc => if c.entries[k].writeEnable then c.entries[k].captureCount else 0)
  }

  /** The walks over the states add up their times and captures. */
  lemma {:induction false} AboveIsSum(c: Config, k: nat)
    requires c.Valid() && k <= c.pc
    ensures TimeAbove(c, k) == Sum(Times(c)[k..])
    ensures CountAbove(c, k) == Sum(Captures(c)[k..])
    decreases c.pc - k
  {
    if k < c.pc {
      AboveIsSum(c, k + 1);
      assert Times(c)[k..][1..] == Times(c)[k + 1..];
      assert Captures(c)[k..][1..] == Captures(c)[k + 1..];
    }
  }

  lemma WalksAreSums(c: Config)
    requires c.Valid()
    ensures TimeAbove(c, 0) == Sum(Times(c)) && CountAbove(c, 0) == Sum(Captures(c))
  {
    AboveIsSum(c, 0);
    assert Times(c)[0..] == Times(c) && Captures(c)[0..] == Captures(c);
  }

  /** Where point i of state k in pass number super belongs: after the earlier passes and the
      higher states of its own pass. */
  function PointIndex(c: Config, super: nat, k: nat, i: nat): nat
    requires c.Valid() && k < c.pc
  {
    super * Sum(Captures(c)) + Sum(Captures(c)[k + 1..]) + i
  }

  /** Its frequency and time, given outright. */
  function PointOf(c: Config, super: nat, k: nat, i: nat): Point
    requires c.Valid() && super < c.superCount && k < c.pc
  {
    var e := c.entries[k];
    Point((e.startFreq + c.superOffsets[super] + i * e.deltaFreq) % WORD64,
          (super * Sum(Times(c)) + Sum(Times(c)[k + 1..]) + e.stateHoldoff + i * (e.dwellTime + e.holdoff)) % WORD32)
  }

  /** The scale holds every captured point of every state of every pass in its place. */
  lemma ClosedForm(c: Config, super: nat, k: nat, i: nat)
    requires c.Valid() && super < c.superCount && k < c.pc
    requires c.entries[k].writeEnable && i < c.entries[k].captureCount
    ensures PointIndex(c, super, k, i) < Total(c)
    ensures ScaleAt(c, PointIndex(c, super, k, i)) == PointOf(c, super, k, i)
  {
    hide PointsAbove, Points, TimeBefore, CountAbove, TimeAbove, ScaleAt, Total, Sum, Times, Captures, FreqAt, TimeAt,
         PointOf;
    PassesExact(c, super);
    WalksAreSums(c);
    AboveIsSum(c, k + 1);
    StateAt(c, c.superOffsets[super], TimeBefore(c, super), k, i);
    PassAt(c, super, CountAbove(c, k + 1) + i);
    PointIs(c, super, k, i, TimeBefore(c, super) + TimeAbove(c, k + 1));
  }

  lemma PointIs(c: Config, super: nat, k: nat, i: nat, t: nat)
    requires c.Valid() && super < c.superCount && k < c.pc
    requires t == super * Sum(Times(c)) + Sum(Times(c)[k + 1..])
    ensures Point(FreqAt(c.entries[k], c.superOffsets[super], i), TimeAt(c.entries[k], t, i)) == PointOf(c, super, k, i)
  {
    hide Sum, Times;
  }

  /** Every point of the scale is one of those. */
  lemma EveryPoint(c: Config, p: nat) returns (super: nat, k: nat, i: nat)
    requires c.Valid() && p < Total(c)
    ensures super < c.superCount && k < c.pc && c.entries[k].writeEnable && i < c.entries[k].captureCount
    ensures p == PointIndex(c, super, k, i)
  {
    hide PointsAbove, Points, TimeBefore, CountAbove, TimeAbove, Sum, Times, Captures;
    PassesExact(c, c.superCount);
    WalksAreSums(c);
    var q;
    super, q := PassOf(CountAbove(c, 0), c.superCount, p);
    k, i := StateOf(c, 0, q);
    AboveIsSum(c, k + 1);
  }

  // ------------------------------------------------------------------------------------
  // After the last point

  /** The lowest numbered state that captures, which is the last one of a pass to do so. */
  predicate LastToCapture(c: Config, m: nat)
    requires c.Valid()
  {
    m < c.pc && c.entries[m].writeEnable && forall j :: 0 <= j < m ==> !c.entries[j].writeEnable
  }

  lemma {:induction false} FreqPassed(c: Config, superOffset: Long, f: Long, k: nat, m: nat)
    requires c.Valid() && LastToCapture(c, m) && k <= m
    ensures FreqAbove(c, superOffset, f, k) ==
            (c.entries[m].startFreq + superOffset + c.entries[m].captureCount * c.entries[m].deltaFreq) % WORD64
    decreases m - k
  {
    if k < m {
      FreqPassed(c, superOffset, f, k + 1, m);
    }
  }

  lemma {:induction false} FreqUntouched(c: Config, superOffset: Long, f: Long, k: nat)
    requires c.Valid() && forall j :: 0 <= j < c.pc ==> !c.entries[j].writeEnable
    ensures FreqAbove(c, superOffset, f, k) == f
    decreases c.pc - k
  {
    if k < c.pc {
      FreqUntouched(c, superOffset, f, k + 1);
    }
  }

  lemma {:induction false} NothingCaptured(c: Config, super: nat)
    requires c.Valid() && super <= c.superCount
    requires forall j :: 0 <= j < c.pc ==> !c.entries[j].writeEnable
    ensures EndFreq(c, super) == 0
  {
    if super > 0 {
      NothingCaptured(c, super - 1);
      FreqUntouched(c, c.superOffsets[super - 1], 0, 0);
    }
  }

  /** After the last point the scale stays at the end of the last pass: its time is that of all
      the passes, and its frequency is the one that the last state to capture would have gone on
      with, or zero if nothing was captured at all. */
  lemma ScaleEnd(c: Config, k: nat)
    requires c.Valid() && k >= c.superCount * Sum(Captures(c))
    ensures ScaleAt(c, k).time == (c.superCount * Sum(Times(c))) % WORD32
    ensures forall m: nat :: c.superCount > 0 && LastToCapture(c, m) ==>
              ScaleAt(c, k).freq ==
              (c.entries[m].startFreq + c.superOffsets[c.superCount - 1] +
               c.entries[m].captureCount * c.entries[m].deltaFreq) % WORD64
    ensures c.superCount == 0 || (forall m: nat :: !LastToCapture(c, m)) ==> ScaleAt(c, k).freq == 0
  {
    hide Sum, Times, Captures, TimeAbove, CountAbove, TimeBefore, Points, FreqAbove;
    PassesExact(c, c.superCount);
    WalksAreSums(c);
    if c.superCount > 0 {
      var n := c.superCount - 1;
      forall m: nat | LastToCapture(c, m)
        ensures EndFreq(c, c.superCount) ==
                (c.entries[m].startFreq + c.superOffsets[n] + c.entries[m].captureCount * c.entries[m].deltaFreq) % WORD64
      {
        FreqPassed(c, c.superOffsets[n], EndFreq(c, n), 0, m);
      }
      if forall m: nat :: !LastToCapture(c, m) {
        NoneToCapture(c, c.pc);
        NothingCaptured(c, c.superCount);
      }
    }
  }

  lemma {:induction false} NoneToCapture(c: Config, n: nat)
    requires c.Valid() && n <= c.pc && forall m: nat :: !LastToCapture(c, m)
    ensures forall j :: 0 <= j < n ==> !c.entries[j].writeEnable
  {
    if n > 0 {
      NoneToCapture(c, n - 1);
      assert !LastToCapture(c, n - 1);
    }
  }

  lemma PassOf(m: nat, count: nat, p: nat) returns (super: nat, q: nat)
    requires p < count * m
    ensures super < count && q < m && p == super * m + q
  {
    super, q := p / m, p % m;
    assert p == m * super + q;
    if super >= count {
      ProductBound(count, super, m, m);
    }
  }

  lemma {:induction false} StateOf(c: Config, from: nat, p: nat) returns (k: nat, i: nat)
    requires c.Valid() && p < CountAbove(c, from)
    ensures k < c.pc && i < c.entries[k].Captured() && p == CountAbove(c, k + 1) + i
    decreases c.pc - from
  {
    if p < CountAbove(c, from + 1) {
      k, i := StateOf(c, from + 1, p);
    } else {
      k, i := from, p - CountAbove(c, from + 1);
    }
  }

  /** No count ever reaches 32 bits. */
  lemma {:induction false} CountBound(c: Config, k: nat)
    requires c.Valid() && k <= c.pc
    ensures CountAbove(c, k) <= (c.pc - k) * MAX_CAPTURE_COUNT
    decreases c.pc - k
  {
    if k < c.pc {
      CountBound(c, k + 1);
    }
  }

  lemma TotalBound(c: Config)
    requires c.Valid()
    ensures Total(c) <= SUPER_SEQ_STATES * MAX_SEQUENCER_COUNT * MAX_CAPTURE_COUNT < WORD32
  {
    PassesExact(c, c.superCount);
    CountBound(c, 0);
    var m: nat := MAX_SEQUENCER_COUNT * MAX_CAPTURE_COUNT;
    ProductBound(c.superCount, SUPER_SEQ_STATES, CountAbove(c, 0), m);
  }

  lemma ProductBound(a: nat, b: nat, x: nat, y: nat)
    requires a <= b && x <= y
    ensures a * x <= b * y
  {
  }

  // ------------------------------------------------------------------------------------
  // Modular accumulation

  lemma AddWrapped32(exact: nat, n: nat)
    ensures (exact % WORD32 + n) % WORD32 == (exact + n) % WORD32
  {
  }

  lemma StepWrapped64(x: nat, y: nat, d: nat, z: nat)
    requires z == y + d
    ensures ((x + y) % WORD64 + d) % WORD64 == (x + z) % WORD64
  {
  }

  lemma NextProduct(i: nat, a: nat)
    ensures (i + 1) * a == i * a + a
  {
  }

  lemma FreqStep(e: Entry, superOffset: Long, i: nat)
    ensures (FreqAt(e, superOffset, i) + e.deltaFreq) % WORD64 == FreqAt(e, superOffset, i + 1)
  {
    NextProduct(i, e.deltaFreq);
    StepWrapped64(e.startFreq + superOffset, i * e.deltaFreq, e.deltaFreq, (i + 1) * e.deltaFreq);
  }

  lemma StepWrapped(x: nat, y: nat, d: nat, z: nat)
    requires z == y + d
    ensures ((x + y) % WORD32 + d % WORD32) % WORD32 == (x + z) % WORD32
  {
  }

  lemma TimeStep(e: Entry, t: nat, i: nat)
    ensures (TimeAt(e, t, i) + e.Dwell() % WORD32) % WORD32 == TimeAt(e, t, i + 1)
  {
    hide Entry.Dwell;
    NextProduct(i, e.Dwell());
    StepWrapped(t + e.stateHoldoff, i * e.Dwell(), e.Dwell(), (i + 1) * e.Dwell());
  }

  /** A product of wrapped words wraps to the product. */
  lemma {:induction false} WrappedProduct(a: nat, n: nat)
    ensures ((a % WORD32) * n) % WORD32 == (a * n) % WORD32
  {
    var q := a / WORD32;
    assert a == WORD32 * q + a % WORD32;
    assert a * n == WORD32 * (q * n) + (a % WORD32) * n;
    Multiple((a % WORD32) * n, q * n);
  }

  lemma Multiple(x: nat, k: nat)
    ensures (WORD32 * k + x) % WORD32 == x % WORD32
  {
  }

  lemma AddBothWrapped(exact: nat, n: nat)
    ensures (exact % WORD32 + n % WORD32) % WORD32 == (exact + n) % WORD32
  {
  }

  // ------------------------------------------------------------------------------------
  // Generating a window

  /** The window from start, of the given length, of what is known of the scale so far. */
  ghost predicate Filled(frequency: array?<nat>, timebase: array?<nat>, start: nat, length: nat, pts: seq<Point>)
    requires frequency != null ==> length <= frequency.Length
    requires timebase != null ==> length <= timebase.Length
    reads frequency, timebase
  {
    && (frequency != null ==> forall j :: 0 <= j < length && start + j < |pts| ==> frequency[j] == pts[start + j].freq)
    && (timebase != null ==> forall j :: 0 <= j < length && start + j < |pts| ==> timebase[j] == pts[start + j].time)
  }

  method WriteScalePoint(frequency: array?<nat>, timebase: array?<nat>, i: nat, f0: nat, totalTime: nat)
    requires frequency != null ==> i < frequency.Length
    requires timebase != null ==> i < timebase.Length
    requires frequency != null ==> frequency != timebase
    modifies frequency, timebase
    ensures frequency != null ==> frequency[..] == old(frequency[..])[i := f0]
    ensures timebase != null ==> timebase[..] == old(timebase[..])[i := totalTime]
  {
    if frequency != null { frequency[i] := f0; }
    if timebase != null { timebase[i] := totalTime; }
  }

  /** The sequencer settings: as edited, with the counts shown for them, and as last armed. */
  class SeqContext {
    var seqConfig: Config
    var seqHwConfig: Config
    var captureCount: Word
    var sequencerDuration: Word
    var seqConfigDirty: bool
    var seqHwConfigDirty: bool

    ghost predicate Valid()
      reads this
    {
      seqConfig.Valid() && seqHwConfig.Valid()
    }

    constructor (c: Config)
      requires c.Valid()
      ensures Valid() && seqConfig == c
    {
      seqConfig, seqHwConfig := c, c;
      captureCount, sequencerDuration := 0, 0;
      seqConfigDirty, seqHwConfigDirty := true, false;
    }

    /** The points of one capturing state, starting at index ix of the whole scale. */
    method WritePoints(frequency: array?<nat>, timebase: array?<nat>, start: nat, length: nat,
                       e: Entry, superOffset: Long, ix: nat, t: Word, ghost exact: nat, ghost pts: seq<Point>)
      returns (ix': nat, f0: Long, t': Word)
      requires frequency != null ==> length <= frequency.Length && frequency != timebase
      requires timebase != null ==> length <= timebase.Length
      requires Filled(frequency, timebase, start, length, pts)
      requires ix == |pts| && t == TimeAt(e, exact, 0)
      modifies frequency, timebase
      ensures ix' == |pts| + e.captureCount
      ensures Filled(frequency, timebase, start, length, pts + StatePoints(e, superOffset, exact, e.captureCount))
      ensures f0 == FreqAt(e, superOffset, e.captureCount) && t' == TimeAt(e, exact, e.captureCount)
    {
      hide FreqAt, TimeAt;
      StateStart(e, superOffset);
      f0 := (e.startFreq + superOffset) % WORD64;
      t' := t;
      ix' := ix;
      var dwell: Word := (e.dwellTime + e.holdoff) % WORD32;
      ghost var all := pts;
      assert pts + StatePoints(e, superOffset, exact, 0) == pts;
      for i: int := 0 to e.captureCount
        invariant ix' == |pts| + i == |all|
        invariant f0 == FreqAt(e, superOffset, i) && t' == TimeAt(e, exact, i)
        invariant all == pts + StatePoints(e, superOffset, exact, i)
        invariant Filled(frequency, timebase, start, length, all)
      {
        ghost var p := Point(f0, t');
        if start <= ix' < start + length {
          WriteScalePoint(frequency, timebase, ix' - start, f0, t');
        }
        assert StatePoints(e, superOffset, exact, i + 1) == StatePoints(e, superOffset, exact, i) + [p];
        all := all + [p];
        FreqStep(e, superOffset, i);
        TimeStep(e, exact, i);
        f0 := (f0 + e.deltaFreq) % WORD64;
        t' := (t' + dwell) % WORD32;
        ix' := ix' + 1;
      }
    }

    /** One state of a pass, entered at time t with running frequency f. */
    method WriteState(frequency: array?<nat>, timebase: array?<nat>, start: nat, length: nat, e: Entry,
                      superOffset: Long, ix: nat, f: Long, t: Word, ghost exact: nat, ghost pts: seq<Point>)
      returns (ix': nat, f0: Long, t': Word)
      requires frequency != null ==> length <= frequency.Length && frequency != timebase
      requires timebase != null ==> length <= timebase.Length
      requires Filled(frequency, timebase, start, length, pts)
      requires ix == |pts| && t == exact % WORD32
      modifies frequency, timebase
      ensures ix' == |pts| + e.Captured()
      ensures Filled(frequency, timebase, start, length, pts + StatePoints(e, superOffset, exact, e.Captured()))
      ensures f0 == FreqAfter(e, superOffset, f) && t' == (exact + e.Duration()) % WORD32
    {
      hide FreqAt, TimeAt;
      StateTime(e, exact);
      t' := (t + e.stateHoldoff) % WORD32;
      var dwell: Word := (e.dwellTime + e.holdoff) % WORD32;
      if e.writeEnable {
        ix', f0, t' := WritePoints(frequency, timebase, start, length, e, superOffset, ix, t', exact, pts);
      } else {
        t' := (t' + dwell * e.captureCount) % WORD32;
        ix', f0 := ix, f;
        assert pts + StatePoints(e, superOffset, exact, 0) == pts;
      }
    }

    /** Any window of the scale of the armed settings; the result is the whole number of points. */
    method ComputeScaleInfo(frequency: array?<nat>, timebase: array?<nat>, start: nat, length: nat)
      returns (samples: nat)
      requires Valid()
      requires frequency != null ==> length <= frequency.Length && frequency != timebase
      requires timebase != null ==> length <= timebase.Length
      requires start <= Total(seqHwConfig) && start + length < WORD32
      modifies frequency, timebase
      ensures samples == Total(seqHwConfig)
      ensures frequency != null ==>
                forall j :: 0 <= j < length ==> frequency[j] == ScaleAt(seqHwConfig, start + j).freq
      ensures timebase != null ==>
                forall j :: 0 <= j < length ==> timebase[j] == ScaleAt(seqHwConfig, start + j).time
    {
      var c := seqHwConfig;
      var ix: nat := 0;
      var totalTime: Word := 0;
      var f0: Long := 0;
      var super := 0;
      ghost var exact: nat := 0;
      ghost var pts: seq<Point> := [];
      while super < c.superCount
        invariant 0 <= super <= c.superCount
        invariant pts == Points(c, super) && ix == |pts|
        invariant exact == TimeBefore(c, super) && totalTime == exact % WORD32
        invariant f0 == EndFreq(c, super)
        invariant Filled(frequency, timebase, start, length, pts)
      {
        ix, f0, totalTime, exact, pts := WritePass(frequency, timebase, start, length, c, super, ix, f0, totalTime, exact, pts);
        super := super + 1;
      }
      ghost var end := Point(f0, totalTime);
      ghost var whole := pts;
      var i := ix;
      while i < start + length
        invariant ix <= i && |pts| == i
        invariant ix < start + length ==> i <= start + length
        invariant forall j :: 0 <= j < |pts| ==> pts[j] == if j < ix then whole[j] else end
        invariant Filled(frequency, timebase, start, length, pts)
      {
        WriteScalePoint(frequency, timebase, i - start, f0, totalTime);
        pts := pts + [end];
        i := i + 1;
      }
      samples := ix;
    }

    /** One pass of the super sequencer, through the states from the last to the first. */
    method WritePass(frequency: array?<nat>, timebase: array?<nat>, start: nat, length: nat, c: Config, super: nat,
                     ix: nat, f: Long, t: Word, ghost exact: nat, ghost pts: seq<Point>)
      returns (ix': nat, f0: Long, t': Word, ghost exact': nat, ghost pts': seq<Point>)
      requires c.Valid() && super < c.superCount
      requires frequency != null ==> length <= frequency.Length && frequency != timebase
      requires timebase != null ==> length <= timebase.Length
      requires Filled(frequency, timebase, start, length, pts)
      requires ix == |pts| && exact == TimeBefore(c, super) && t == exact % WORD32
      modifies frequency, timebase
      ensures pts' == pts + PointsAbove(c, c.superOffsets[super], exact, 0) && ix' == |pts'|
      ensures exact' == TimeBefore(c, super + 1) && t' == exact' % WORD32
      ensures f0 == FreqAbove(c, c.superOffsets[super], f, 0)
      ensures Filled(frequency, timebase, start, length, pts')
    {
      hide FreqAfter, TimeBefore, TimeAbove, PointsAbove, FreqAbove, CountAbove, Filled;
      var superOffset := c.superOffsets[super];
      AboveNone(c, superOffset, f, exact);
      assert pts + [] == pts;
      var state := c.pc;
      ix', f0, t', exact', pts' := ix, f, t, exact, pts;
      while state > 0
        invariant 0 <= state <= c.pc
        invariant exact' == exact + TimeAbove(c, state) && t' == exact' % WORD32
        invariant pts' == pts + PointsAbove(c, superOffset, exact, state) && ix' == |pts'|
        invariant f0 == FreqAbove(c, superOffset, f, state)
        invariant Filled(frequency, timebase, start, length, pts')
      {
        var e := c.entries[state - 1];
        AboveNext(c, superOffset, f, exact, state - 1);
        ix', f0, t' := WriteState(frequency, timebase, start, length, e, superOffset, ix', f0, t', exact', pts');
        pts' := pts' + StatePoints(e, superOffset, exact', e.Captured());
        exact' := exact' + e.Duration();
        state := state - 1;
      }
      PassTime(c, super);
    }

    /** The counter shown while the settings are edited walks the states the other way. */
    method UpdateCaptureCount()
      requires Valid()
      modifies `captureCount, `sequencerDuration, `seqConfigDirty
      ensures captureCount == Sum(Captures(seqConfig)) % WORD32
      ensures sequencerDuration == Sum(Times(seqConfig)) % WORD32
      ensures seqConfigDirty
    {
      hide CountBelow, TimeBelow, Entry.Duration, CountAbove, TimeAbove, Sum, Captures, Times;
      var c := seqConfig;
      captureCount, sequencerDuration := 0, 0;
      BelowNone(c);
      for i := 0 to c.pc
        invariant seqConfig == c
        invariant captureCount == CountBelow(c, i) % WORD32
        invariant sequencerDuration == TimeBelow(c, i) % WORD32
      {
        var e := c.entries[i];
        if e.writeEnable {
          captureCount := (captureCount + e.captureCount) % WORD32;
        }
        BelowNext(c, i);
        AddWrapped32(CountBelow(c, i), e.captureCount);
        AddBothWrapped(TimeBelow(c, i), e.Duration());
        sequencerDuration := (sequencerDuration + Spent(e)) % WORD32;
      }
      BothWays(c, 0);
      WalksAreSums(c);
      seqConfigDirty := true;
    }

    /** Arming copies the edited settings for the hardware and for later scale requests. */
    method PrepareSequencer()
      requires Valid()
      modifies `seqHwConfig, `seqHwConfigDirty, `seqConfigDirty
      ensures Valid() && seqHwConfig == seqConfig
      ensures seqHwConfigDirty == old(seqConfigDirty) && !seqConfigDirty
    {
      seqHwConfig := seqConfig;
      seqHwConfigDirty := seqConfigDirty;
      seqConfigDirty := false;
    }
  }

  lemma StateStart(e: Entry, superOffset: Long)
    ensures FreqAt(e, superOffset, 0) == (e.startFreq + superOffset) % WORD64
  {
  }

  lemma AboveNone(c: Config, superOffset: Long, f: Long, t: nat)
    requires c.Valid()
    ensures TimeAbove(c, c.pc) == 0 && PointsAbove(c, superOffset, t, c.pc) == []
    ensures FreqAbove(c, superOffset, f, c.pc) == f
  {
  }

  lemma AboveNext(c: Config, superOffset: Long, f: Long, t: nat, k: nat)
    requires c.Valid() && k < c.pc
    ensures TimeAbove(c, k) == TimeAbove(c, k + 1) + c.entries[k].Duration()
    ensures PointsAbove(c, superOffset, t, k) == PointsAbove(c, superOffset, t, k + 1) +
            StatePoints(c.entries[k], superOffset, t + TimeAbove(c, k + 1), c.entries[k].Captured())
    ensures FreqAbove(c, superOffset, f, k) == FreqAfter(c.entries[k], superOffset, FreqAbove(c, superOffset, f, k + 1))
  {
  }

  lemma PassTime(c: Config, super: nat)
    requires c.Valid()
    ensures TimeBefore(c, super + 1) == TimeBefore(c, super) + TimeAbove(c, 0)
  {
  }

  /** Time on entry to a state and on leaving it, with and without capture. */
  lemma StateTime(e: Entry, exact: nat)
    ensures (exact % WORD32 + e.stateHoldoff) % WORD32 == TimeAt(e, exact, 0)
    ensures TimeAt(e, exact, e.captureCount) == (exact + e.Duration()) % WORD32
    ensures (TimeAt(e, exact, 0) + (e.Dwell() % WORD32) * e.captureCount) % WORD32 ==
            (exact + e.Duration()) % WORD32
  {
    hide TimeAt, Entry.Dwell, Entry.Duration;
    var x, y := e.captureCount * e.Dwell(), (e.Dwell() % WORD32) * e.captureCount;
    WrappedProduct(e.Dwell(), e.captureCount);
    StateTimes(exact, e.stateHoldoff, x, y);
    TimesOf(e, exact, x);
  }

  lemma TimesOf(e: Entry, exact: nat, x: nat)
    requires x == e.captureCount * e.Dwell()
    ensures TimeAt(e, exact, 0) == (exact + e.stateHoldoff) % WORD32
    ensures exact + e.Duration() == exact + (e.stateHoldoff + x)
    ensures TimeAt(e, exact, e.captureCount) == (exact + (e.stateHoldoff + x)) % WORD32
  {
  }

  lemma StateTimes(exact: nat, h: nat, x: nat, y: nat)
    requires x % WORD32 == y % WORD32
    ensures (exact % WORD32 + h) % WORD32 == (exact + h) % WORD32
    ensures ((exact + h) % WORD32 + y) % WORD32 == (exact + (h + x)) % WORD32
  {
    DropMultiple(exact % WORD32 + h, exact / WORD32);
    DropMultiple((exact + h) % WORD32 + y, (exact + h) / WORD32);
    var rest := exact + h + x % WORD32;
    DropMultiple(rest, x / WORD32);
    DropMultiple(rest, y / WORD32);
  }

  lemma DropMultiple(n: nat, k: nat)
    ensures (n + WORD32 * k) % WORD32 == n % WORD32
  {
  }

  /** Time spent in a state, in 32-bit arithmetic. */
  function Spent(e: Entry): (t: Word)
    ensures t == e.Duration() % WORD32
  {
    var dwell := (e.dwellTime + e.holdoff) % WORD32;
    SpentExact(e);
    (e.stateHoldoff + e.captureCount * dwell) % WORD32
  }

  lemma SpentExact(e: Entry)
    ensures (e.stateHoldoff + e.captureCount * (e.Dwell() % WORD32)) % WORD32 == e.Duration() % WORD32
  {
    var x, y := e.captureCount * e.Dwell(), e.captureCount * (e.Dwell() % WORD32);
    WrappedProduct(e.Dwell(), e.captureCount);
    AddBothWrapped(e.stateHoldoff, x);
    AddBothWrapped(e.stateHoldoff, y);
  }

  function CountBelow(c: Config, k: nat): nat
    requires c.Valid() && k <= c.pc
  {
    if k == 0 then 0 else CountBelow(c, k - 1) + c.entries[k - 1].Captured()
  }

  function TimeBelow(c: Config, k: nat): nat
    requires c.Valid() && k <= c.pc
  {
    if k == 0 then 0 else TimeBelow(c, k - 1) + c.entries[k - 1].Duration()
  }

  lemma BelowNone(c: Config)
    requires c.Valid()
    ensures CountBelow(c, 0) == 0 && TimeBelow(c, 0) == 0
  {
  }

  lemma BelowNext(c: Config, k: nat)
    requires c.Valid() && k < c.pc
    ensures CountBelow(c, k + 1) == CountBelow(c, k) + c.entries[k].Captured()
    ensures TimeBelow(c, k + 1) == TimeBelow(c, k) + c.entries[k].Duration()
  {
  }

  lemma {:induction false} BothWays(c: Config, k: nat)
    requires c.Valid() && k <= c.pc
    ensures CountBelow(c, c.pc) == CountBelow(c, k) + CountAbove(c, k)
    ensures TimeBelow(c, c.pc) == TimeBelow(c, k) + TimeAbove(c, k)
    decreases c.pc - k
  {
    if k < c.pc {
      BothWays(c, k + 1);
    }
  }

  /** The two walks over the same settings agree: the scale has super_count times the capture
      count of points, and ends after super_count times the duration. */
  lemma CountersAgree(c: Config, captureCount: Word, duration: Word)
    requires c.Valid()
    requires captureCount == Sum(Captures(c)) % WORD32 && duration == Sum(Times(c)) % WORD32
    ensures Total(c) == c.superCount * captureCount
    ensures ScaleAt(c, Total(c)).time == (c.superCount * duration) % WORD32
  {
    hide PointsAbove, Points, TimeBefore, CountAbove, TimeAbove, Sum, Captures, Times, ScaleAt;
    PassesExact(c, c.superCount);
    WalksAreSums(c);
    CountBound(c, 0);
    assert captureCount == CountAbove(c, 0);
    WrappedProduct(TimeAbove(c, 0), c.superCount);
    ScaleEnd(c, Total(c));
  }

  // ------------------------------------------------------------------------------------
  // Sending windows of the detector readout

  const DETECTOR_COUNT := 4

  /** What is read for a detector request: the captured results of the enabled detectors, or
      a scale. */
  datatype Reader =
    | Samples(detectors: nat, memory: nat -> nat)
    | Scale
    | LongScale
    | Timebase
  {
    predicate Valid() {
      Samples? ==> 0 < detectors <= DETECTOR_COUNT
    }

    function SampleSize(): nat {
      match this
      case Samples(d, _) => 8 * d
      case Scale => 4
      case LongScale => 8
      case Timebase => 4
    }
  }

  /** What is sent for one sample. */
  function Reading(r: Reader, c: Config, k: nat): (s: seq<nat>)
    requires c.Valid()
  {
    match r
    case Samples(d, memory) => seq(d, j requires 0 <= j < d => memory(d * k + j))
    case Scale => [ScaleAt(c, k).freq / 0x1_0000 % WORD32]
    case LongScale => [ScaleAt(c, k).freq]
    case Timebase => [ScaleAt(c, k).time]
  }

  function Readings(r: Reader, c: Config, lo: nat, n: nat): seq<nat>
    requires c.Valid()
  {
    if n == 0 then [] else Readings(r, c, lo, n - 1) + Reading(r, c, lo + n - 1)
  }

  lemma {:induction false} ReadingsSplit(r: Reader, c: Config, lo: nat, a: nat, b: nat)
    requires c.Valid()
    ensures Readings(r, c, lo, a + b) == Readings(r, c, lo, a) + Readings(r, c, lo + a, b)
  {
    hide Reading;
    if b > 0 {
      ReadingsSplit(r, c, lo, a, b - 1);
      assert lo + (a + b) - 1 == (lo + a) + b - 1 && a + b - 1 == a + (b - 1);
    }
  }

  lemma {:induction false} ScaleReadings(r: Reader, c: Config, lo: nat, s: seq<nat>)
    requires c.Valid() && !r.Samples?
    requires forall j :: 0 <= j < |s| ==> [s[j]] == Reading(r, c, lo + j)
    ensures s == Readings(r, c, lo, |s|)
  {
    hide Reading;
    if |s| > 0 {
      ScaleReadings(r, c, lo, s[..|s| - 1]);
      assert s == s[..|s| - 1] + [s[|s| - 1]];
    }
  }

  lemma {:induction false} SampleReadings(r: Reader, c: Config, lo: nat, n: nat)
    requires c.Valid() && r.Samples?
    ensures |Readings(r, c, lo, n)| == r.detectors * n
    ensures forall j :: 0 <= j < r.detectors * n ==> Readings(r, c, lo, n)[j] == r.memory(r.detectors * lo + j)
  {
    if n > 0 {
      SampleReadings(r, c, lo, n - 1);
      assert r.detectors * n == r.detectors * (n - 1) + r.detectors;
      assert r.detectors * (lo + n - 1) == r.detectors * lo + r.detectors * (n - 1);
    }
  }

  /** Value j of a readout, outright: a captured result, bits 16 to 47 of a frequency, a whole
      frequency or a time. */
  ghost predicate ReadoutValue(r: Reader, c: Config, j: nat, v: nat)
    requires c.Valid()
  {
    match r
    case Samples(_, memory) => v == memory(j)
    case Scale => v == (ScaleAt(c, j).freq / 0x1_0000) % WORD32
    case LongScale => v == ScaleAt(c, j).freq
    case Timebase => v == ScaleAt(c, j).time
  }

  lemma {:induction false} ReadoutValues(r: Reader, c: Config, n: nat)
    requires c.Valid() && r.Valid()
    ensures |Readings(r, c, 0, n)| == if r.Samples? then r.detectors * n else n
    ensures forall j :: 0 <= j < |Readings(r, c, 0, n)| ==> ReadoutValue(r, c, j, Readings(r, c, 0, n)[j])
  {
    hide ScaleAt;
    if r.Samples? {
      SampleReadings(r, c, 0, n);
    } else if n > 0 {
      ReadoutValues(r, c, n - 1);
    }
  }

  method ReadSamples(context: SeqContext, r: Reader, offset: nat, n: nat) returns (buffer: seq<nat>)
    requires context.Valid() && r.Valid()
    requires offset + n <= Total(context.seqHwConfig)
    ensures buffer == Readings(r, context.seqHwConfig, offset, n)
  {
    hide Readings, ScaleAt, Total;
    ghost var c := context.seqHwConfig;
    TotalBound(c);
    match r
    case Samples(d, memory) =>
      var count := 8 * d / 8 * n;
      var base := 8 * d * offset / 8;
      SampleReadings(r, c, offset, n);
      assert base == d * offset;
      buffer := seq(count, j requires 0 <= j < count => memory(base + j));
    case Scale =>
      var frequencies := new nat[n];
      var _ := context.ComputeScaleInfo(frequencies, null, offset, n);
      buffer := seq(n, j requires 0 <= j < n reads frequencies => frequencies[j] / 0x1_0000 % WORD32);
      ScaleReadings(r, c, offset, buffer);
    case LongScale =>
      var frequencies := new nat[n];
      var _ := context.ComputeScaleInfo(frequencies, null, offset, n);
      buffer := frequencies[..];
      ScaleReadings(r, c, offset, buffer);
    case Timebase =>
      var timebase := new nat[n];
      var _ := context.ComputeScaleInfo(null, timebase, offset, n);
      buffer := timebase[..];
      ScaleReadings(r, c, offset, buffer);
  }

  /** The windows sent one after the other are the unwindowed readout. */
  method SendDetectorData(context: SeqContext, r: Reader, samples: nat) returns (sent: seq<nat>)
    requires context.Valid() && r.Valid() && samples <= Total(context.seqHwConfig)
    ensures sent == Readings(r, context.seqHwConfig, 0, samples)
    ensures |sent| == if r.Samples? then r.detectors * samples else samples
    ensures forall j :: 0 <= j < |sent| ==> ReadoutValue(r, context.seqHwConfig, j, sent[j])
  {
    hide Readings, Total, ReadoutValue;
    ghost var c := context.seqHwConfig;
    var offset := 0;
    var left := samples;
    sent := [];
    NoReadings(r, c);
    while left > 0
      invariant 0 <= left && offset + left == samples
      invariant sent == Readings(r, c, 0, offset)
    {
      var bufferSamples := READ_BUFFER_BYTES / r.SampleSize();
      var n := if left < bufferSamples then left else bufferSamples;
      var buffer := ReadSamples(context, r, offset, n);
      ReadingsSplit(r, c, 0, offset, n);
      sent := sent + buffer;
      left := left - n;
      offset := offset + n;
    }
    ReadoutValues(r, c, samples);
  }

  lemma NoReadings(r: Reader, c: Config)
    requires c.Valid()
    ensures Readings(r, c, 0, 0) == []
  {
  }
}
