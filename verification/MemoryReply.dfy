/** What a memory request is answered with: the single-pass meaning of every reply format,
    over a memory given as a function from sample numbers to 32-bit samples. */
module MemoryReply {
  import opened Common
  import opened MemoryDevice

  const MAX_BUNCHES := 2048
  const PHASE := 0x1_0000_0000_0000

  /** One raw sample turned by a phase in units of 2^-48 revolutions. */
  datatype Term = Term(phase: nat, value: int)

  /** The values sent: a 16-bit sample, the mean of a column of samples, or a sum of turned
      samples divided by their number. */
  datatype Sample = I16(value: int) | F32(mean: real) | C64(terms: seq<Term>, divisor: nat)

  /** Channel selection and the delay of each channel in samples. */
  datatype Channels = Channels(d0: nat, d1: nat, ch0: bool, ch1: bool) {
    predicate Valid(bunches: nat) {
      (ch0 || ch1) && d0 < bunches && d1 < bunches
    }

    function Count(): (n: nat) {
      if ch0 && ch1 then 2 else 1
    }
  }

  function Signed16(n: nat): int
    requires n < 0x1_0000
  {
    if n < 0x8000 then n else n - 0x1_0000
  }

  function Low(w: Word): int {
    Signed16(w % 0x1_0000)
  }

  function High(w: Word): int {
    Signed16(w / 0x1_0000)
  }

  /** The selected channels of sample number p, each corrected for its own delay. */
  function Extract(f: nat -> Word, p: nat, ch: Channels): (s: seq<int>)
    requires ch.ch0 || ch.ch1
    ensures |s| == ch.Count()
  {
    (if ch.ch0 then [Low(f(p + ch.d0))] else []) + (if ch.ch1 then [High(f(p + ch.d1))] else [])
  }

  /** Number j of the values extracted from sample p on. */
  function Pick(f: nat -> Word, ch: Channels, p: nat, j: nat): int
    requires ch.ch0 || ch.ch1
  {
    if ch.Count() == 1 then Extract(f, p + j, ch)[0] else Extract(f, p + j / 2, ch)[j % 2]
  }

  /** The bunch that value j of a turn belongs to. */
  function BunchOf(ch: Channels, j: nat): nat {
    if ch.Count() == 1 then j else j / 2
  }

  function Extracts(f: nat -> Word, ch: Channels, p: nat, n: nat): (s: seq<int>)
    requires ch.ch0 || ch.ch1
  {
    if n == 0 then [] else Extracts(f, ch, p, n - 1) + Extract(f, p + n - 1, ch)
  }

  lemma {:induction false} ExtractsAt(f: nat -> Word, ch: Channels, p: nat, n: nat)
    requires ch.ch0 || ch.ch1
    ensures |Extracts(f, ch, p, n)| == n * ch.Count()
    ensures forall j :: 0 <= j < n * ch.Count() ==> Extracts(f, ch, p, n)[j] == Pick(f, ch, p, j)
  {
    if n > 0 {
      ExtractsAt(f, ch, p, n - 1);
      assert n * ch.Count() == (n - 1) * ch.Count() + ch.Count();
      assert ch.Count() == 1 || ch.Count() == 2;
    }
  }

  /** The phase of bunch b of raw turn n. */
  function PhaseOf(bunches: nat, tune: nat, n: nat, b: nat): nat {
    ((n * bunches + b) * tune) % PHASE
  }

  /** Value j of raw turn n. */
  function TurnValue(f: nat -> Word, ch: Channels, bunches: nat, n: nat, j: nat): int
    requires ch.ch0 || ch.ch1
  {
    Pick(f, ch, n * bunches, j)
  }

  function ColumnSum(f: nat -> Word, ch: Channels, bunches: nat, first: nat, n: nat, j: nat): int
    requires ch.ch0 || ch.ch1
  {
    if n == 0 then 0
    else ColumnSum(f, ch, bunches, first, n - 1, j) + TurnValue(f, ch, bunches, first + n - 1, j)
  }

  function ColumnTerms(f: nat -> Word, ch: Channels, bunches: nat, tune: nat, first: nat, n: nat, j: nat)
    : seq<Term>
    requires ch.ch0 || ch.ch1
  {
    if n == 0 then []
    else ColumnTerms(f, ch, bunches, tune, first, n - 1, j) +
         [Term(PhaseOf(bunches, tune, first + n - 1, BunchOf(ch, j)),
               TurnValue(f, ch, bunches, first + n - 1, j))]
  }

  // ------------------------------------------------------------------------------------
  // The reply

  /** The reply formats; the last two decimate. */
  datatype Kind =
    | Plain
    | Single(bunch: nat)
    | Mean(decimation: nat)
    | Shifted(decimation: nat, tune: nat)
  {
    predicate Valid(bunches: nat) {
      match this
      case Plain => true
      case Single(b) => b < bunches
      case Mean(d) => d > 0
      case Shifted(d, _) => d > 0
    }

    /** Raw samples consumed by one unit of the reply. */
    function Step(bunches: nat): nat {
      match this
      case Plain => 1
      case Single(_) => bunches
      case Mean(d) => d * bunches
      case Shifted(d, _) => d * bunches
    }

    /** Values in one unit of the reply. */
    function Size(bunches: nat, ch: Channels): nat {
      match this
      case Plain => ch.Count()
      case Single(_) => ch.Count()
      case Mean(_) => bunches * ch.Count()
      case Shifted(_, _) => bunches * ch.Count()
    }
  }

  function Tag(s: seq<int>): (r: seq<Sample>)
    ensures |r| == |s|
  {
    seq(|s|, i requires 0 <= i < |s| => I16(s[i]))
  }

  /** Unit i of the reply: one sample, one turn's sample of a bunch, or one decimated turn. */
  function Unit(k: Kind, f: nat -> Word, ch: Channels, bunches: nat, i: nat): (s: seq<Sample>)
    requires k.Valid(bunches) && (ch.ch0 || ch.ch1)
    ensures |s| == k.Size(bunches, ch)
  {
    match k
    case Plain => Tag(Extract(f, i, ch))
    case Single(b) => Tag(Extract(f, i * bunches + b, ch))
    case Mean(d) =>
      seq(bunches * ch.Count(), j requires 0 <= j < bunches * ch.Count() =>
        F32(ColumnSum(f, ch, bunches, i * d, d, j) as real / d as real))
    case Shifted(d, tune) =>
      seq(bunches * ch.Count(), j requires 0 <= j < bunches * ch.Count() =>
        C64(ColumnTerms(f, ch, bunches, tune, i * d, d, j), d))
  }

  /** Units lo to lo + n of the reply. */
  function Reply(k: Kind, f: nat -> Word, ch: Channels, bunches: nat, lo: nat, n: nat): seq<Sample>
    requires k.Valid(bunches) && (ch.ch0 || ch.ch1)
  {
    if n == 0 then []
    else Reply(k, f, ch, bunches, lo, n - 1) + Unit(k, f, ch, bunches, lo + n - 1)
  }

  lemma {:induction false} ReplyLength(k: Kind, f: nat -> Word, ch: Channels, bunches: nat, lo: nat, n: nat)
    requires k.Valid(bunches) && (ch.ch0 || ch.ch1)
    ensures |Reply(k, f, ch, bunches, lo, n)| == n * k.Size(bunches, ch)
  {
    if n > 0 {
      ReplyLength(k, f, ch, bunches, lo, n - 1);
      assert n * k.Size(bunches, ch) == (n - 1) * k.Size(bunches, ch) + k.Size(bunches, ch);
    }
  }

  /** Value j of unit i stands where the sizes of the units before put it. */
  lemma {:induction false} ReplyAt(k: Kind, f: nat -> Word, ch: Channels, bunches: nat, lo: nat, n: nat, i: nat, j: nat)
    requires k.Valid(bunches) && (ch.ch0 || ch.ch1)
    requires i < n && j < k.Size(bunches, ch)
    ensures i * k.Size(bunches, ch) + j < |Reply(k, f, ch, bunches, lo, n)|
    ensures Reply(k, f, ch, bunches, lo, n)[i * k.Size(bunches, ch) + j] == Unit(k, f, ch, bunches, lo + i)[j]
  {
    hide Unit;
    ReplyLength(k, f, ch, bunches, lo, n - 1);
    if i < n - 1 {
      ReplyAt(k, f, ch, bunches, lo, n - 1, i, j);
    }
  }

  lemma ReplyEmpty(k: Kind, f: nat -> Word, ch: Channels, bunches: nat, lo: nat)
    requires k.Valid(bunches) && (ch.ch0 || ch.ch1)
    ensures Reply(k, f, ch, bunches, lo, 0) == []
  {
  }

  lemma ReplyNext(k: Kind, f: nat -> Word, ch: Channels, bunches: nat, lo: nat, n: nat)
    requires k.Valid(bunches) && (ch.ch0 || ch.ch1)
    ensures Reply(k, f, ch, bunches, lo, n + 1) ==
            Reply(k, f, ch, bunches, lo, n) + Unit(k, f, ch, bunches, lo + n)
  {
  }

  /** However a reply is cut, its pieces make up the whole. */
  lemma {:induction false} ReplySplit(k: Kind, f: nat -> Word, ch: Channels, bunches: nat, lo: nat, a: nat, b: nat)
    requires k.Valid(bunches) && (ch.ch0 || ch.ch1)
    ensures Reply(k, f, ch, bunches, lo, a + b) ==
            Reply(k, f, ch, bunches, lo, a) + Reply(k, f, ch, bunches, lo + a, b)
  {
    hide Unit;
    if b == 0 {
      assert Reply(k, f, ch, bunches, lo + a, 0) == [];
    } else {
      ReplySplit(k, f, ch, bunches, lo, a, b - 1);
      assert lo + (a + b) - 1 == (lo + a) + b - 1;
      assert a + b - 1 == a + (b - 1);
    }
  }

  lemma {:induction false} PlainReply(f: nat -> Word, ch: Channels, bunches: nat, lo: nat, n: nat)
    requires ch.ch0 || ch.ch1
    ensures Reply(Plain, f, ch, bunches, lo, n) == Tag(Extracts(f, ch, lo, n))
  {
    if n > 0 {
      PlainReply(f, ch, bunches, lo, n - 1);
    }
  }

  // ------------------------------------------------------------------------------------
  // Phase accumulation in 64-bit integers

  /** The angle before raw turn n: the per-turn advance added up with 64-bit wrap-around. */
  function AngleAt(bunches: nat, tune: nat, n: nat): nat {
    if n == 0 then 0 else (AngleAt(bunches, tune, n - 1) + (tune * bunches) % WORD64) % WORD64
  }

  /** The fixup angle of bunch b: the tune added up with 64-bit wrap-around. */
  function FixupAt(tune: nat, b: nat): nat {
    if b == 0 then 0 else (FixupAt(tune, b - 1) + tune) % WORD64
  }

  lemma AngleNext(bunches: nat, tune: nat, n: nat)
    ensures AngleAt(bunches, tune, n + 1) == (AngleAt(bunches, tune, n) + (tune * bunches) % WORD64) % WORD64
  {
  }

  lemma FixupNext(tune: nat, b: nat)
    ensures FixupAt(tune, b + 1) == (FixupAt(tune, b) + tune) % WORD64
  {
  }

  lemma FixupZero(tune: nat)
    ensures FixupAt(tune, 0) == 0
  {
  }

  lemma WrapSum(p: nat, q: nat)
    ensures (p % WORD64 + q % WORD64) % WORD64 == (p + q) % WORD64
    ensures (p % WORD64 + q) % WORD64 == (p + q) % WORD64
  {
    DropMultiple(p % WORD64 + q, p / WORD64);
    DropMultiple(p % WORD64 + q % WORD64, p / WORD64 + q / WORD64);
  }

  lemma DropMultiple(n: nat, k: nat)
    ensures (n + WORD64 * k) % WORD64 == n % WORD64
  {
  }

  lemma PhaseSum(p: nat, q: nat)
    ensures (p % WORD64 % PHASE + q % WORD64 % PHASE) % PHASE == (p + q) % PHASE
  {
    PhaseOfWrapped(p);
    PhaseOfWrapped(q);
    PhaseAdd(p, q);
  }

  lemma PhaseOfWrapped(p: nat)
    ensures p % WORD64 % PHASE == p % PHASE
  {
  }

  lemma PhaseAdd(p: nat, q: nat)
    ensures (p % PHASE + q % PHASE) % PHASE == (p + q) % PHASE
  {
  }

  lemma OneMore(n: nat, a: nat)
    ensures (n + 1) * a == n * a + a
  {
  }

  lemma {:induction false} AngleExact(bunches: nat, tune: nat, n: nat, total: nat)
    requires total == n * (tune * bunches)
    ensures AngleAt(bunches, tune, n) == total % WORD64
  {
    if n > 0 {
      var advance := tune * bunches;
      OneMore(n - 1, advance);
      AngleExact(bunches, tune, n - 1, total - advance);
      WrapSum(total - advance, advance);
    }
  }

  lemma {:induction false} FixupExact(tune: nat, b: nat, total: nat)
    requires total == b * tune
    ensures FixupAt(tune, b) == total % WORD64
  {
    if b > 0 {
      OneMore(b - 1, tune);
      FixupExact(tune, b - 1, total - tune);
      WrapSum(total - tune, tune);
    }
  }

  lemma PhaseProduct(bunches: nat, tune: nat, n: nat, b: nat)
    ensures (n * bunches + b) * tune == n * (tune * bunches) + b * tune
  {
  }

  /** The running angle and the fixup table together turn bunch b of raw turn n by exactly
      (n * bunches + b) * tune, whatever wrapped on the way. */
  lemma PhaseExact(bunches: nat, tune: nat, n: nat, b: nat)
    ensures (AngleAt(bunches, tune, n) % PHASE + FixupAt(tune, b) % PHASE) % PHASE ==
            PhaseOf(bunches, tune, n, b)
  {
    var x, y := n * (tune * bunches), b * tune;
    AngleExact(bunches, tune, n, x);
    FixupExact(tune, b, y);
    PhaseProduct(bunches, tune, n, b);
    PhaseSum(x, y);
  }

  function Turned(terms: seq<Term>, angle: nat): (r: seq<Term>)
    ensures |r| == |terms|
  {
    seq(|terms|, i requires 0 <= i < |terms| =>
      Term((terms[i].phase + angle % PHASE) % PHASE, terms[i].value))
  }

  /** The terms of a column before the fixup, with the running angle only. */
  function RawTerms(f: nat -> Word, ch: Channels, bunches: nat, tune: nat, first: nat, n: nat, j: nat)
    : seq<Term>
    requires ch.ch0 || ch.ch1
  {
    if n == 0 then []
    else RawTerms(f, ch, bunches, tune, first, n - 1, j) +
         [Term(AngleAt(bunches, tune, first + n - 1) % PHASE, TurnValue(f, ch, bunches, first + n - 1, j))]
  }

  lemma {:induction false} FixedTerms(f: nat -> Word, ch: Channels, bunches: nat, tune: nat, first: nat, n: nat, j: nat)
    requires ch.ch0 || ch.ch1
    ensures Turned(RawTerms(f, ch, bunches, tune, first, n, j), FixupAt(tune, BunchOf(ch, j))) ==
            ColumnTerms(f, ch, bunches, tune, first, n, j)
  {
    hide TurnValue, AngleAt, FixupAt, PhaseOf, BunchOf;
    if n > 0 {
      FixedTerms(f, ch, bunches, tune, first, n - 1, j);
      PhaseExact(bunches, tune, first + n - 1, BunchOf(ch, j));
    }
  }

  lemma ShiftedUnit(d: nat, tune: nat, f: nat -> Word, ch: Channels, bunches: nat, i: nat)
    requires d > 0 && (ch.ch0 || ch.ch1)
    ensures forall j :: 0 <= j < bunches * ch.Count() ==>
              Unit(Shifted(d, tune), f, ch, bunches, i)[j] ==
              C64(ColumnTerms(f, ch, bunches, tune, i * d, d, j), d)
  {
  }

  lemma MeanUnit(d: nat, f: nat -> Word, ch: Channels, bunches: nat, i: nat)
    requires d > 0 && (ch.ch0 || ch.ch1)
    ensures forall j :: 0 <= j < bunches * ch.Count() ==>
              Unit(Mean(d), f, ch, bunches, i)[j] ==
              F32(ColumnSum(f, ch, bunches, i * d, d, j) as real / d as real)
  {
  }
}
