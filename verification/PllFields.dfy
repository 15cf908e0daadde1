/** Named bit fields of the clock chip, spread over its registers, written to a cache or
    straight to the hardware. */
module PllFields {
  import opened Common

  // ------------------------------------------------------------------------------------
  // Integers as bits

  /** A non-negative integer of any size, as the set of the places of its one bits. */
  type Bits = set<nat>

  function Shl(v: Bits, n: nat): Bits {
    set i | i in v :: i + n
  }

  lemma InShl(v: Bits, n: nat, i: nat)
    ensures i in Shl(v, n) <==> i >= n && i - n in v
  {
  }

  function Shr(v: Bits, n: nat): Bits {
    set i | i in v && i >= n :: i - n
  }

  lemma InShr(v: Bits, n: nat, i: nat)
    ensures i in Shr(v, n) <==> i + n in v
  {
  }

  /** The lowest bits set: (1 << width) - 1. */
  function Ones(width: nat): (r: Bits)
    ensures forall i: nat {:trigger i in r} :: i in r <==> i < width
  {
    if width == 0 then {} else Ones(width - 1) + {width - 1}
  }

  // ------------------------------------------------------------------------------------
  // Fields

  /** Part of a field: width bits of a register from an offset on. */
  datatype SubField = SubField(reg: nat, width: nat, offset: nat)

  function Mask(s: SubField): (r: Bits)
    ensures forall i: nat {:trigger i in r} :: i in r <==> s.offset <= i < s.offset + s.width
  {
    var r := Shl(Ones(s.width), s.offset);
    assert forall i: nat {:trigger i in r} :: i in r <==> i >= s.offset && i - s.offset in Ones(s.width);
    r
  }

  function RegistersOf(subs: seq<SubField>): set<nat> {
    set i | 0 <= i < |subs| :: subs[i].reg
  }

  lemma RegistersNext(subs: seq<SubField>, s: SubField)
    ensures RegistersOf(subs + [s]) == RegistersOf(subs) + {s.reg}
  {
    var all := subs + [s];
    assert all[|subs|] == s;
    assert forall i :: 0 <= i < |subs| ==> all[i] == subs[i];
  }

  predicate Disjoint(s: SubField, t: SubField) {
    s.reg != t.reg || Mask(s) !! Mask(t)
  }

  /** Bits from one register upwards: the subfields of a field never share a bit. */
  predicate Separate(subs: seq<SubField>) {
    forall i, j :: 0 <= i < j < |subs| ==> Disjoint(subs[i], subs[j])
  }

  predicate Apart(subs: seq<SubField>, others: seq<SubField>) {
    forall i, j :: 0 <= i < |subs| && 0 <= j < |others| ==> Disjoint(subs[i], others[j])
  }

  function Insert(r: Bits, s: SubField, value: Bits): Bits {
    (r - Mask(s)) + (Shl(value, s.offset) * Mask(s))
  }

  function Extract(r: Bits, s: SubField): Bits {
    Shr(r, s.offset) * Ones(s.width)
  }

  function Width(subs: seq<SubField>): nat {
    if subs == [] then 0 else subs[0].width + Width(subs[1..])
  }

  /** The registers as they read, one value for each number. */
  type View = nat -> Bits

  function Put(view: View, s: SubField, value: Bits): View {
    r => if r == s.reg then Insert(view(r), s, value) else view(r)
  }

  /** Writing a field, lowest part first. */
  function PutAll(view: View, subs: seq<SubField>, value: Bits): View {
    if subs == [] then view else PutAll(Put(view, subs[0], value), subs[1..], Shr(value, subs[0].width))
  }

  function GetAll(view: View, subs: seq<SubField>): Bits {
    if subs == [] then {} else Shl(GetAll(view, subs[1..]), subs[0].width) + Extract(view(subs[0].reg), subs[0])
  }

  /** The bits of a value that belong to part k of its field. */
  function Slice(value: Bits, subs: seq<SubField>, k: nat): Bits
    requires k < |subs|
  {
    Shr(value, Width(subs[..k])) * Ones(subs[k].width)
  }

  lemma ShlNothing(n: nat)
    ensures Shl({}, n) == {}
  {
  }

  lemma LowAndHigh(high: Bits, low: Bits, width: nat)
    requires low <= Ones(width)
    ensures (Shl(high, width) + low) * Ones(width) == low
    ensures Shr(Shl(high, width) + low, width) == high
  {
    hide Shl, Shr;
    var v := Shl(high, width) + low;
    forall i: nat ensures i in Shl(high, width) ==> i >= width {
      InShl(high, width, i);
    }
    forall i: nat ensures i in Shr(v, width) <==> i in high {
      InShr(v, width, i);
      InShl(high, width, i + width);
    }
  }

  lemma SliceFirst(high: Bits, low: Bits, s: SubField, rest: seq<SubField>)
    requires low <= Ones(s.width)
    ensures Slice(Shl(high, s.width) + low, [s] + rest, 0) == low
  {
    hide Shl, Shr;
    assert ([s] + rest)[..0] == [];
    ShrNothing(Shl(high, s.width) + low);
    LowAndHigh(high, low, s.width);
  }

  lemma SliceNext(high: Bits, low: Bits, s: SubField, rest: seq<SubField>, k: nat)
    requires low <= Ones(s.width) && k < |rest|
    ensures Slice(Shl(high, s.width) + low, [s] + rest, k + 1) == Slice(high, rest, k)
  {
    hide Shl, Shr;
    var subs := [s] + rest;
    assert subs[..k + 1][1..] == rest[..k] && subs[..k + 1][0] == s;
    ShrTwice(Shl(high, s.width) + low, s.width, Width(rest[..k]));
    LowAndHigh(high, low, s.width);
  }

  lemma ShrNothing(v: Bits)
    ensures Shr(v, 0) == v
  {
    hide Shr;
    forall i: nat ensures i in Shr(v, 0) <==> i in v {
      InShr(v, 0, i);
    }
  }

  /** What a field reads holds each of its parts in its own place. */
  lemma {:induction false} GetAllSlice(view: View, subs: seq<SubField>, k: nat)
    requires k < |subs|
    ensures Slice(GetAll(view, subs), subs, k) == Extract(view(subs[k].reg), subs[k])
  {
    hide Shl, Shr, Slice;
    var s, rest := subs[0], subs[1..];
    var low := Extract(view(s.reg), s);
    assert subs == [s] + rest;
    if k == 0 {
      SliceFirst(GetAll(view, rest), low, s, rest);
    } else {
      GetAllSlice(view, rest, k - 1);
      SliceNext(GetAll(view, rest), low, s, rest, k - 1);
    }
  }

  lemma PutOther(view: View, s: SubField, value: Bits, t: SubField)
    requires Disjoint(s, t)
    ensures Extract(Put(view, s, value)(t.reg), t) == Extract(view(t.reg), t)
  {
    hide Shr, Shl;
    if s.reg == t.reg {
      var r, r' := view(t.reg), Insert(view(t.reg), s, value);
      forall i: nat ensures i in Extract(r', t) <==> i in Extract(r, t) {
        InShr(r, t.offset, i);
        InShr(r', t.offset, i);
        assert i < t.width ==> i + t.offset in Mask(t);
      }
    }
  }

  lemma PutSame(view: View, s: SubField, value: Bits)
    ensures Extract(Put(view, s, value)(s.reg), s) == value * Ones(s.width)
  {
    hide Shr, Shl;
    var r := Insert(view(s.reg), s, value);
    forall i: nat ensures i in Extract(r, s) <==> i in value && i < s.width {
      InShr(r, s.offset, i);
      InShl(value, s.offset, i + s.offset);
      assert i + s.offset in Mask(s) <==> i < s.width;
    }
  }

  /** Writing a field changes no bit of a disjoint one. */
  lemma {:induction false} PutAllOther(view: View, subs: seq<SubField>, value: Bits, t: SubField)
    requires forall i :: 0 <= i < |subs| ==> Disjoint(subs[i], t)
    ensures Extract(PutAll(view, subs, value)(t.reg), t) == Extract(view(t.reg), t)
  {
    hide Extract, Put;
    if subs != [] {
      PutAllOther(Put(view, subs[0], value), subs[1..], Shr(value, subs[0].width), t);
      PutOther(view, subs[0], value, t);
    }
  }

  lemma {:induction false} GetAllSame(view: View, other: View, subs: seq<SubField>)
    requires forall i :: 0 <= i < |subs| ==> Extract(view(subs[i].reg), subs[i]) == Extract(other(subs[i].reg), subs[i])
    ensures GetAll(view, subs) == GetAll(other, subs)
  {
    if subs != [] {
      GetAllSame(view, other, subs[1..]);
    }
  }

  /** What is read back is the value written, cut to the width of the field. */
  lemma {:induction false} ReadBack(view: View, subs: seq<SubField>, value: Bits)
    requires Separate(subs)
    ensures GetAll(PutAll(view, subs, value), subs) == value * Ones(Width(subs))
  {
    hide Extract, Put, Shl, Shr;
    if subs != [] {
      var s, rest := subs[0], subs[1..];
      var after := Put(view, s, value);
      var high := Shr(value, s.width);
      ReadBack(after, rest, high);
      PutAllOther(after, rest, high, s);
      PutSame(view, s, value);
      JoinParts(value, s.width, Width(rest));
    }
  }

  // ------------------------------------------------------------------------------------
  // Bit by bit

  lemma ExtractBit(r: Bits, s: SubField, b: nat)
    ensures b in Extract(r, s) <==> b < s.width && s.offset + b in r
  {
    InShr(r, s.offset, b);
  }

  lemma WidthBefore(s: SubField, rest: seq<SubField>, k: nat)
    requires k <= |rest|
    ensures Width(([s] + rest)[..k + 1]) == s.width + Width(rest[..k])
  {
    var all := ([s] + rest)[..k + 1];
    assert all[0] == s && all[1..] == rest[..k];
  }

  /** Bit b of part k of a field is written to its place in the register of that part: it is the
      bit of the value that stands above the parts before it. */
  lemma {:induction false} BitWritten(view: View, subs: seq<SubField>, value: Bits, k: nat, b: nat)
    requires Separate(subs) && k < |subs| && b < subs[k].width
    ensures subs[k].offset + b in PutAll(view, subs, value)(subs[k].reg) <==> Width(subs[..k]) + b in value
    decreases |subs|
  {
    hide Extract, Put, Shl, Shr, Insert, Width;
    var s, rest := subs[0], subs[1..];
    var after, high := Put(view, s, value), Shr(value, s.width);
    assert subs == [s] + rest;
    if k == 0 {
      PutAllOther(after, rest, high, s);
      PutSame(view, s, value);
      ExtractBit(PutAll(after, rest, high)(s.reg), s, b);
      NoWidth(subs);
    } else {
      BitWritten(after, rest, high, k - 1, b);
      WidthBefore(s, rest, k - 1);
      InShr(value, s.width, Width(rest[..k - 1]) + b);
    }
  }

  lemma NoWidth(subs: seq<SubField>)
    ensures Width(subs[..0]) == 0
  {
  }

  lemma InsertKeeps(r: Bits, s: SubField, value: Bits, i: nat)
    requires !(s.offset <= i < s.offset + s.width)
    ensures i in Insert(r, s, value) <==> i in r
  {
  }

  /** Every other bit of every register is as it was. */
  lemma {:induction false} BitKept(view: View, subs: seq<SubField>, value: Bits, r: nat, i: nat)
    requires forall k :: 0 <= k < |subs| && subs[k].reg == r ==> !(subs[k].offset <= i < subs[k].offset + subs[k].width)
    ensures i in PutAll(view, subs, value)(r) <==> i in view(r)
  {
    hide Insert, Shr;
    if subs != [] {
      BitKept(Put(view, subs[0], value), subs[1..], Shr(value, subs[0].width), r, i);
      if subs[0].reg == r {
        InsertKeeps(view(r), subs[0], value, i);
      }
    }
  }

  /** What is read of a field has these bits of its registers, in the same places. */
  lemma {:induction false} BitRead(view: View, subs: seq<SubField>, k: nat, b: nat)
    requires k < |subs| && b < subs[k].width
    ensures Width(subs[..k]) + b in GetAll(view, subs) <==> subs[k].offset + b in view(subs[k].reg)
    decreases |subs|
  {
    hide GetAll, Width;
    var s, rest := subs[0], subs[1..];
    assert subs == [s] + rest;
    JoinedBit(view, s, rest, Width(subs[..k]) + b);
    if k == 0 {
      NoWidth(subs);
    } else {
      WidthBefore(s, rest, k - 1);
      BitRead(view, rest, k - 1, b);
    }
  }

  /** And no others. */
  lemma {:induction false} NothingAbove(view: View, subs: seq<SubField>, i: nat)
    requires i >= Width(subs)
    ensures i !in GetAll(view, subs)
  {
    if subs != [] {
      assert subs == [subs[0]] + subs[1..];
      JoinedBit(view, subs[0], subs[1..], i);
      NothingAbove(view, subs[1..], i - subs[0].width);
    }
  }

  lemma JoinedBit(view: View, s: SubField, rest: seq<SubField>, i: nat)
    ensures i in GetAll(view, [s] + rest) <==>
            if i < s.width then s.offset + i in view(s.reg) else i - s.width in GetAll(view, rest)
  {
    hide Shl, Extract;
    assert ([s] + rest)[1..] == rest;
    InShl(GetAll(view, rest), s.width, i);
    ExtractBit(view(s.reg), s, i);
  }

  lemma JoinParts(value: Bits, width: nat, more: nat)
    ensures Shl(Shr(value, width) * Ones(more), width) + value * Ones(width) == value * Ones(width + more)
  {
    forall i: nat ensures i in Shl(Shr(value, width) * Ones(more), width) + value * Ones(width) <==>
                          i in value * Ones(width + more) {
      InShl(Shr(value, width) * Ones(more), width, i);
      if i >= width {
        InShr(value, width, i - width);
      }
    }
  }

  lemma OthersKept(view: View, subs: seq<SubField>, value: Bits, others: seq<SubField>)
    requires Apart(subs, others)
    ensures GetAll(PutAll(view, subs, value), others) == GetAll(view, others)
  {
    hide Extract;
    forall j | 0 <= j < |others|
      ensures Extract(PutAll(view, subs, value)(others[j].reg), others[j]) == Extract(view(others[j].reg), others[j]) {
      PutAllOther(view, subs, value, others[j]);
    }
    GetAllSame(PutAll(view, subs, value), view, others);
  }

  /** Nothing is left over exactly when the value fits. */
  lemma FitsWidth(value: Bits, width: nat)
    ensures Shr(value, width) == {} <==> value * Ones(width) == value
  {
    hide Shr;
    forall i | i in value && i >= width ensures Shr(value, width) != {} {
      InShr(value, width, i - width);
    }
    if i :| i in Shr(value, width) {
      InShr(value, width, i);
      assert i + width in value && i + width !in value * Ones(width);
    } else {
      assert value * Ones(width) == value;
    }
  }

  lemma ShrTwice(v: Bits, m: nat, n: nat)
    ensures Shr(Shr(v, m), n) == Shr(v, m + n)
  {
    hide Shr;
    forall i: nat ensures i in Shr(Shr(v, m), n) <==> i in Shr(v, m + n) {
      InShr(v, m, i + n);
      InShr(Shr(v, m), n, i);
      InShr(v, m + n, i);
      assert i + n + m == i + (m + n);
    }
  }

  // ------------------------------------------------------------------------------------
  // Field definitions

  /** A part with its default, highest part first. */
  datatype Part = Part(sub: SubField, default: Bits)

  /** The default put together from its parts, and the parts in the order of writing. */
  method ComputeFields(parts: seq<Part>) returns (default: Bits, subs: seq<SubField>)
    requires parts != []
    ensures subs == SubsOf(parts) && forall i :: 0 <= i < |parts| ==> subs[|parts| - 1 - i] == parts[i].sub
    ensures default == DefaultOf(parts)
    ensures PartsFit(parts) ==> forall i :: 0 <= i < |parts| ==> Slice(default, subs, |parts| - 1 - i) == parts[i].default
  {
    hide PartsFit, Slice, Shl;
    DefaultSlices(parts);
    default := parts[0].default;
    for i := 1 to |parts|
      invariant default == DefaultOf(parts[..i])
    {
      assert parts[..i + 1][..i] == parts[..i];
      default := Shl(default, parts[i].sub.width) + parts[i].default;
    }
    assert parts[..|parts|] == parts;
    subs := seq(|parts|, i requires 0 <= i < |parts| => parts[|parts| - 1 - i].sub);
  }

  predicate PartsFit(parts: seq<Part>) {
    forall i :: 0 <= i < |parts| ==> parts[i].default <= Ones(parts[i].sub.width)
  }

  function DefaultOf(parts: seq<Part>): Bits {
    if parts == [] then {}
    else if |parts| == 1 then parts[0].default
    else Shl(DefaultOf(parts[..|parts| - 1]), parts[|parts| - 1].sub.width) + parts[|parts| - 1].default
  }

  function SubsOf(parts: seq<Part>): (subs: seq<SubField>)
    ensures |subs| == |parts|
  {
    seq(|parts|, i requires 0 <= i < |parts| => parts[|parts| - 1 - i].sub)
  }

  /** Every part of a definition finds its own default at its own place in the whole value. */
  lemma {:induction false} DefaultSlice(parts: seq<Part>, i: nat)
    requires PartsFit(parts) && i < |parts|
    ensures Slice(DefaultOf(parts), SubsOf(parts), |parts| - 1 - i) == parts[i].default
  {
    hide Shl, Shr, Slice;
    var n := |parts| - 1;
    var low, rest := parts[n], parts[..n];
    var high := DefaultOf(rest);
    assert DefaultOf(parts) == Shl(high, low.sub.width) + low.default by {
      ShlNothing(low.sub.width);
    }
    assert SubsOf(parts) == [low.sub] + SubsOf(rest);
    if i == n {
      SliceFirst(high, low.default, low.sub, SubsOf(rest));
    } else {
      DefaultSlice(rest, i);
      SliceNext(high, low.default, low.sub, SubsOf(rest), n - 1 - i);
    }
  }

  lemma {:induction false} DefaultSlices(parts: seq<Part>)
    ensures PartsFit(parts) ==> forall i :: 0 <= i < |parts| ==>
              Slice(DefaultOf(parts), SubsOf(parts), |parts| - 1 - i) == parts[i].default
  {
    hide Slice, DefaultOf;
    if PartsFit(parts) {
      forall i | 0 <= i < |parts| ensures Slice(DefaultOf(parts), SubsOf(parts), |parts| - 1 - i) == parts[i].default {
        DefaultSlice(parts, i);
      }
    }
  }

  /** Parts that fit make up a default that fits. */
  lemma {:induction false} DefaultFits(parts: seq<Part>)
    requires PartsFit(parts)
    ensures DefaultOf(parts) <= Ones(Width(SubsOf(parts)))
  {
    hide Shl;
    if parts != [] {
      var n := |parts| - 1;
      DefaultFits(parts[..n]);
      ShlNothing(parts[n].sub.width);
      assert SubsOf(parts) == [parts[n].sub] + SubsOf(parts[..n]);
      assert ([parts[n].sub] + SubsOf(parts[..n]))[1..] == SubsOf(parts[..n]);
      forall i | i in DefaultOf(parts) ensures i < Width(SubsOf(parts)) {
        InShl(DefaultOf(parts[..n]), parts[n].sub.width, i);
      }
    }
  }

  /** A definition whose parts fit their defaults is one the writer accepts. */
  lemma PartsFitTogether(d: Definition)
    requires d.parts != [] && PartsFit(d.parts)
    ensures d.Fits()
  {
    DefaultFits(d.parts);
    FitsWidth(DefaultOf(d.parts), Width(SubsOf(d.parts)));
  }

  datatype Definition = Definition(name: string, parts: seq<Part>)
  {
    predicate Fits() {
      parts != [] && Shr(DefaultOf(parts), Width(SubsOf(parts))) == {}
    }
  }

  /** All the registers of a table. */
  function TableRegisters(defs: seq<Definition>): set<nat> {
    if defs == [] then {}
    else TableRegisters(defs[..|defs| - 1]) + RegistersOf(SubsOf(defs[|defs| - 1].parts))
  }

  lemma TableNext(defs: seq<Definition>, n: nat)
    requires n < |defs|
    ensures TableRegisters(defs[..n + 1]) == TableRegisters(defs[..n]) + RegistersOf(SubsOf(defs[n].parts))
    ensures defs[..0] == []
  {
    assert defs[..n + 1][..n] == defs[..n];
  }

  predicate DistinctNames(defs: seq<Definition>) {
    forall i, j :: 0 <= i < j < |defs| ==> defs[i].name != defs[j].name
  }

  /** No two fields of the table share a bit, and neither do two parts of one. */
  predicate TableApart(defs: seq<Definition>) {
    && (forall i :: 0 <= i < |defs| ==> Separate(SubsOf(defs[i].parts)))
    && (forall i, j :: 0 <= i < |defs| && 0 <= j < |defs| && i != j ==>
          Apart(SubsOf(defs[i].parts), SubsOf(defs[j].parts)))
  }

  /** A field written with a value that fits reads back that value. */
  lemma FieldReadsBack(was: View, now: View, subs: seq<SubField>, value: Bits)
    requires Separate(subs) && forall r: nat :: now(r) == PutAll(was, subs, value)(r)
    ensures GetAll(now, subs) == value <==> Shr(value, Width(subs)) == {}
  {
    ReadBack(was, subs, value);
    FitsWidth(value, Width(subs));
    GetAllSame(now, PutAll(was, subs, value), subs);
  }

  /** Whatever is written, other fields read as before. */
  lemma FieldKept(was: View, now: View, subs: seq<SubField>, value: Bits, others: seq<SubField>)
    requires Apart(subs, others) && forall r: nat :: now(r) == PutAll(was, subs, value)(r)
    ensures GetAll(now, others) == GetAll(was, others)
  {
    OthersKept(was, subs, value, others);
    GetAllSame(now, PutAll(was, subs, value), others);
  }

  // ------------------------------------------------------------------------------------
  // The hardware

  datatype Write = Write(address: nat, value: Bits)

  function Lookup(memory: map<nat, Bits>, initial: nat -> Bits, address: nat): Bits {
    if address in memory then memory[address] else initial(address)
  }

  /** Registers that read back what was last written to them. */
  class Pll {
    const initial: nat -> Bits
    var memory: map<nat, Bits>
    ghost var log: seq<Write>

    constructor (initial: nat -> Bits)
      ensures this.initial == initial && log == [] && memory == map[]
    {
      this.initial := initial;
      memory, log := map[], [];
    }

    function Get(address: nat): Bits
      reads this
    {
      Lookup(memory, initial, address)
    }

    method Set(address: nat, value: Bits)
      modifies this
      ensures memory == old(memory)[address := value] && log == old(log) + [Write(address, value)]
    {
      memory := memory[address := value];
      log := log + [Write(address, value)];
    }
  }

  /** The addresses of registers counted from a base. */
  ghost function At(base: nat, regs: set<nat>): set<nat> {
    set r | r in regs :: base + r
  }

  lemma AtMore(base: nat, few: set<nat>, many: set<nat>)
    requires few <= many
    ensures At(base, few) <= At(base, many)
  {
  }

  /** The hardware has changed at those registers at most. */
  ghost predicate Kept(before: map<nat, Bits>, after: map<nat, Bits>, base: nat, regs: set<nat>) {
    before - At(base, regs) == after - At(base, regs)
  }

  lemma KeptSame(m: map<nat, Bits>, base: nat, regs: set<nat>)
    ensures Kept(m, m, base, regs)
  {
  }

  lemma KeptWrite(before: map<nat, Bits>, after: map<nat, Bits>, base: nat, regs: set<nat>, reg: nat, value: Bits)
    requires Kept(before, after, base, regs) && reg in regs
    ensures Kept(before, after[base + reg := value], base, regs)
  {
    assert base + reg in At(base, regs);
    assert after[base + reg := value] - At(base, regs) == after - At(base, regs);
  }

  lemma KeptJoin(m0: map<nat, Bits>, m1: map<nat, Bits>, m2: map<nat, Bits>, base: nat, r: set<nat>, q: set<nat>)
    requires Kept(m0, m1, base, r) && Kept(m1, m2, base, q)
    ensures Kept(m0, m2, base, r + q)
  {
    var a, b, c := At(base, r), At(base, q), At(base, r + q);
    assert c == a + b;
    KeptMore(m0, m1, a, c);
    KeptMore(m1, m2, b, c);
  }

  lemma KeptMore(m: map<nat, Bits>, n: map<nat, Bits>, a: set<nat>, c: set<nat>)
    requires m - a == n - a && a <= c
    ensures m - c == n - c
  {
    assert m - c == (m - a) - c && n - c == (n - a) - c;
  }

  lemma KeptAt(m: map<nat, Bits>, n: map<nat, Bits>, base: nat, regs: set<nat>, address: nat)
    requires Kept(m, n, base, regs) && address !in At(base, regs)
    ensures address in m <==> address in n
    ensures address in m ==> m[address] == n[address]
  {
    assert address in m <==> address in m - At(base, regs);
    assert address in n <==> address in n - At(base, regs);
    assert address in m ==> (m - At(base, regs))[address] == m[address];
    assert address in n ==> (n - At(base, regs))[address] == n[address];
  }

  /** What a writer knows, with the registers that are its own. */
  datatype Cache = Cache(base: nat, owned: set<nat>, registers: map<nat, Bits>, dirty: set<nat>)

  ghost predicate InSync(c: Cache, memory: map<nat, Bits>, initial: nat -> Bits) {
    && c.registers.Keys <= c.owned
    && forall r :: r in c.registers ==> r in c.dirty || c.registers[r] == Lookup(memory, initial, c.base + r)
  }

  /** Writers without a common address, all in step with the hardware. */
  ghost predicate AllInSync(cs: seq<Cache>, memory: map<nat, Bits>, initial: nat -> Bits) {
    && (forall i :: 0 <= i < |cs| ==> InSync(cs[i], memory, initial))
    && (forall i, j :: 0 <= i < |cs| && 0 <= j < |cs| && i != j ==>
          At(cs[i].base, cs[i].owned) !! At(cs[j].base, cs[j].owned))
  }

  lemma SyncAt(cs: seq<Cache>, memory: map<nat, Bits>, initial: nat -> Bits, i: nat)
    requires AllInSync(cs, memory, initial) && i < |cs|
    ensures InSync(cs[i], memory, initial)
  {
  }

  lemma OthersInSync(c: Cache, m: map<nat, Bits>, n: map<nat, Bits>, initial: nat -> Bits, base: nat, regs: set<nat>)
    requires InSync(c, m, initial) && Kept(m, n, base, regs) && At(c.base, c.owned) !! At(base, regs)
    ensures InSync(c, n, initial)
  {
    hide Kept;
    forall r | r in c.registers ensures r in c.dirty || c.registers[r] == Lookup(n, initial, c.base + r) {
      assert c.base + r in At(c.base, c.owned);
      KeptAt(m, n, base, regs, c.base + r);
    }
  }

  /** A writer that stays in step, and touches its own registers only, keeps all in step. */
  lemma OneInSync(cs: seq<Cache>, i: nat, c: Cache, m: map<nat, Bits>, n: map<nat, Bits>, initial: nat -> Bits,
                  touched: set<nat>)
    requires AllInSync(cs, m, initial) && i < |cs|
    requires c.base == cs[i].base && c.owned == cs[i].owned && InSync(c, n, initial)
    requires Kept(m, n, c.base, touched) && touched <= c.owned
    ensures AllInSync(cs[i := c], n, initial)
  {
    hide Kept, InSync, At;
    AtMore(c.base, touched, c.owned);
    forall k | 0 <= k < |cs| && k != i ensures InSync(cs[k], n, initial) {
      OthersInSync(cs[k], m, n, initial, c.base, touched);
    }
  }

  // ------------------------------------------------------------------------------------
  // The writer

  class FieldWriter {
    const pll: Pll
    const base: nat
    var live: bool
    var registers: map<nat, Bits>
    var dirty: set<nat>
    var fields: map<string, seq<SubField>>

    ghost predicate Valid()
      reads this
    {
      dirty <= registers.Keys
    }

    /** What reading a register gives now: the hardware if live, or else the cache. */
    function Reading(reg: nat): Bits
      reads `live, `registers, pll
    {
      if live then pll.Get(base + reg) else if reg in registers then registers[reg] else {}
    }

    ghost function View(): (v: View)
      reads `live, `registers, pll
      ensures forall r: nat :: v(r) == Reading(r)
    {
      var l, b, cache, memory, initial := live, base, registers, pll.memory, pll.initial;
      r => if l then (if b + r in memory then memory[b + r] else initial(b + r))
           else if r in cache then cache[r] else {}
    }

    /** The register is cached, and unless it waits to be flushed the hardware agrees. */
    ghost predicate Coherent(reg: nat)
      reads `registers, `dirty, pll
    {
      reg in registers && (reg in dirty || registers[reg] == pll.Get(base + reg))
    }

    ghost function Coherents(): iset<nat>
      reads `registers, `dirty, pll
    {
      iset r: nat | Coherent(r)
    }

    /** Every cached register waits to be flushed or agrees with the hardware. */
    ghost predicate Synchronised()
      reads `registers, `dirty, pll
    {
      forall r :: r in registers ==> r in Coherents()
    }

    /** The same of the values alone. */
    lemma SynchronisedIs(owned: set<nat>)
      requires registers.Keys <= owned
      ensures Synchronised() <==> InSync(Cache(base, owned, registers, dirty), pll.memory, pll.initial)
    {
      if Synchronised() {
        forall r | r in registers ensures r in dirty || registers[r] == Lookup(pll.memory, pll.initial, base + r) {
          assert r in Coherents();
        }
      }
    }

    method WriteRegister(reg: nat, value: Bits)
      requires Valid()
      modifies `registers, `dirty, pll
      ensures Valid() && reg in Coherents()
      ensures registers == old(registers)[reg := value]
      ensures forall r: nat :: Reading(r) == if r == reg then value else old(Reading(r))
      ensures old(Coherents()) <= Coherents()
      ensures old(Synchronised()) ==> Synchronised()
      ensures live ==> dirty == old(dirty) - {reg} && pll.log == old(pll.log) + [Write(base + reg, value)]
      ensures live ==> pll.memory == old(pll.memory)[base + reg := value]
      ensures !live ==> dirty == old(dirty) + {reg} && pll.log == old(pll.log) && pll.memory == old(pll.memory)
    {
      registers := registers[reg := value];
      if live {
        pll.Set(base + reg, value);
        dirty := dirty - {reg};
      } else {
        dirty := dirty + {reg};
      }
    }

    /** Reading a live register takes the hardware's word for it; reading an unknown one from the
        cache makes it 0 without marking it for flushing. */
    method ReadRegister(reg: nat) returns (value: Bits)
      requires Valid()
      modifies `registers, `dirty
      ensures Valid() && value == old(Reading(reg)) && reg in registers
      ensures forall r: nat :: Reading(r) == old(Reading(r))
      ensures old(Coherents()) <= Coherents()
      ensures reg in Coherents() <==> live || reg in old(Coherents()) || (pll.Get(base + reg) == {} && old(reg !in registers))
      ensures dirty == if live then old(dirty) - {reg} else old(dirty)
      ensures registers.Keys == old(registers).Keys + {reg}
    {
      if live {
        value := pll.Get(base + reg);
        registers := registers[reg := value];
        dirty := dirty - {reg};
      } else {
        if reg !in registers {
          registers := registers[reg := {}];
        }
        value := registers[reg];
      }
    }

    /** The fields of the table are known, and all their registers are cached. */
    ghost predicate Defined(defs: seq<Definition>)
      reads this, pll
    {
      forall i :: 0 <= i < |defs| ==>
        && defs[i].name in fields && fields[defs[i].name] == SubsOf(defs[i].parts)
        && forall k :: 0 <= k < |SubsOf(defs[i].parts)| ==> SubsOf(defs[i].parts)[k].reg in Coherents()
    }

    ghost predicate AtDefaults(defs: seq<Definition>)
      reads this, pll
    {
      forall i :: 0 <= i < |defs| ==> GetAll(View(), SubsOf(defs[i].parts)) == DefaultOf(defs[i].parts)
    }

    /** A cache only writer, with every field at its default; the defaults fit their fields. */
    constructor (pll: Pll, base: nat, defs: seq<Definition>)
      requires DistinctNames(defs) && forall i :: 0 <= i < |defs| ==> defs[i].Fits()
      modifies pll
      ensures Valid() && !live && this.pll == pll && this.base == base && pll.log == old(pll.log) && pll.memory == old(pll.memory)
      ensures Defined(defs)
      ensures TableApart(defs) ==> AtDefaults(defs)
      ensures TableApart(defs) ==> EachAtDefault(defs)
      ensures dirty == registers.Keys == TableRegisters(defs)
    {
      this.pll, this.base := pll, base;
      live, registers, dirty, fields := false, map[], {}, map[];
      new;
      hide FieldWriter.Defined, FieldWriter.AtDefaults, FieldWriter.EachAtDefault, FieldWriter.Coherents, TableApart, TableRegisters;
      NoFields();
      for n := 0 to |defs|
        invariant Valid() && !live && pll.log == old(pll.log) && pll.memory == old(pll.memory)
        invariant Defined(defs[..n])
        invariant TableApart(defs) ==> AtDefaults(defs[..n])
        invariant dirty == registers.Keys == TableRegisters(defs[..n])
      {
        TableNext(defs, n);
        DefineField(defs, n, defs[n]);
      }
      assert defs[..|defs|] == defs;
      if TableApart(defs) {
        EachDefault(defs);
      }
    }

    /** Every part of every field whose parts fit is at its own default. */
    ghost predicate EachAtDefault(defs: seq<Definition>)
      reads this, pll
    {
      forall i, k :: 0 <= i < |defs| && PartsFit(defs[i].parts) && 0 <= k < |defs[i].parts| ==>
        var p := defs[i].parts[k];
        Extract(View()(p.sub.reg), p.sub) == p.default
    }

    lemma {:induction false} EachDefault(defs: seq<Definition>)
      requires AtDefaults(defs)
      ensures EachAtDefault(defs)
    {
      hide GetAll, DefaultOf, SubsOf, PartsFit, Extract;
      forall i | 0 <= i < |defs| && PartsFit(defs[i].parts)
        ensures forall k :: 0 <= k < |defs[i].parts| ==>
                  Extract(View()(defs[i].parts[k].sub.reg), defs[i].parts[k].sub) == defs[i].parts[k].default
      {
        PartsAtDefault(View(), defs[i].parts);
      }
    }

    lemma NoFields()
      ensures Defined([]) && AtDefaults([]) && TableRegisters([]) == {}
    {
    }

    method DefineField(ghost defs: seq<Definition>, ghost n: nat, d: Definition)
      requires Valid() && !live && DistinctNames(defs) && n < |defs| && d == defs[n] && d.Fits()
      requires Defined(defs[..n])
      modifies `registers, `dirty, `fields, pll
      ensures Valid() && Defined(defs[..n + 1])
      ensures TableApart(defs) && old(AtDefaults(defs[..n])) ==> AtDefaults(defs[..n + 1])
      ensures dirty == old(dirty) + RegistersOf(SubsOf(d.parts))
      ensures registers.Keys == old(registers).Keys + RegistersOf(SubsOf(d.parts))
      ensures pll.log == old(pll.log) && pll.memory == old(pll.memory)
    {
      hide FieldWriter.Coherents, GetAll, PutAll, SubsOf, DefaultOf, Width, Shr, Shl, Separate, Apart, RegistersOf, PartsFit, Slice;
      ghost var was := View();
      var default, subs := ComputeFields(d.parts);
      fields := fields[d.name := subs];
      var _ := WriteValue(subs, default);
      assert forall i :: 0 <= i < n ==> defs[..n + 1][i] == defs[..n][i];
      if TableApart(defs) && old(AtDefaults(defs[..n])) {
        FieldReadsBack(was, View(), subs, default);
        forall i | 0 <= i < n ensures GetAll(View(), SubsOf(defs[i].parts)) == DefaultOf(defs[i].parts) {
          assert defs[..n][i] == defs[i];
          FieldKept(was, View(), subs, default, SubsOf(defs[i].parts));
        }
      }
    }

    /** Writes a field a part at a time; says whether the value fitted. */
    method WriteValue(subs: seq<SubField>, value: Bits) returns (fits: bool)
      requires Valid()
      modifies `registers, `dirty, pll
      ensures Valid()
      ensures fits <==> Shr(value, Width(subs)) == {}
      ensures forall r: nat :: Reading(r) == PutAll(old(View()), subs, value)(r)
      ensures old(Coherents()) <= Coherents()
      ensures forall i :: 0 <= i < |subs| ==> subs[i].reg in Coherents()
      ensures !live ==> pll.log == old(pll.log) && pll.memory == old(pll.memory)
      ensures !live ==> dirty == old(dirty) + RegistersOf(subs)
      ensures registers.Keys == old(registers).Keys + RegistersOf(subs)
    {
      hide FieldWriter.Coherents, FieldWriter.Reading, FieldWriter.View, PutAll, RegistersOf, Width, Insert, Shr, Shl, Lookup;
      var rest := value;
      ghost var now := View();
      ghost var target := PutAll(now, subs, value);
      assert subs[0..] == subs && subs[..0] == [];
      NoPart(now, rest);
      for n := 0 to |subs|
        invariant Valid() && live == old(live)
        invariant Shr(rest, Width(subs[n..])) == Shr(value, Width(subs))
        invariant PutAll(now, subs[n..], rest) == target
        invariant forall r: nat :: Reading(r) == now(r)
        invariant old(Coherents()) <= Coherents()
        invariant forall i :: 0 <= i < n ==> subs[i].reg in Coherents()
        invariant !live ==> pll.log == old(pll.log) && pll.memory == old(pll.memory)
        invariant !live ==> dirty == old(dirty) + RegistersOf(subs[..n])
        invariant registers.Keys == old(registers).Keys + RegistersOf(subs[..n])
      {
        WritePart(subs[n], rest);
        assert subs[..n + 1] == subs[..n] + [subs[n]];
        RegistersNext(subs[..n], subs[n]);
        assert subs[n..] == [subs[n]] + subs[n + 1..];
        NextPart(now, subs[n], subs[n + 1..], rest);
        now := Put(now, subs[n], rest);
        rest := Shr(rest, subs[n].width);
      }
      assert subs[|subs|..] == [] && subs[..|subs|] == subs;
      NoPart(now, rest);
      fits := rest == {};
    }

    /** Replaces the bits of one part. */
    method WritePart(s: SubField, value: Bits)
      requires Valid()
      modifies `registers, `dirty, pll
      ensures Valid() && s.reg in Coherents()
      ensures forall r: nat :: Reading(r) == if r == s.reg then Insert(old(Reading(r)), s, value) else old(Reading(r))
      ensures old(Coherents()) <= Coherents()
      ensures !live ==> pll.log == old(pll.log) && pll.memory == old(pll.memory)
      ensures !live ==> dirty == old(dirty) + {s.reg}
      ensures registers.Keys == old(registers).Keys + {s.reg}
    {
      hide FieldWriter.Coherents, Insert;
      var reg := ReadRegister(s.reg);
      WriteRegister(s.reg, Insert(reg, s, value));
    }

    method ReadValue(subs: seq<SubField>) returns (value: Bits)
      requires Valid()
      modifies `registers, `dirty
      ensures Valid() && value == GetAll(old(View()), subs)
      ensures forall r: nat :: Reading(r) == old(Reading(r))
      ensures old(Coherents()) <= Coherents()
      ensures !live ==> dirty == old(dirty)
    {
      hide Shl, Shr, FieldWriter.Coherents;
      value := {};
      ghost var before := View();
      var n := |subs|;
      while n > 0
        invariant 0 <= n <= |subs| && Valid()
        invariant value == GetAll(before, subs[n..])
        invariant forall r: nat :: Reading(r) == before(r)
        invariant old(Coherents()) <= Coherents()
        invariant !live ==> dirty == old(dirty)
      {
        n := n - 1;
        assert subs[n..][0] == subs[n] && subs[n..][1..] == subs[n + 1..];
        var reg := ReadRegister(subs[n].reg);
        value := Shl(value, subs[n].width) + Extract(reg, subs[n]);
      }
      assert subs[0..] == subs;
    }

    /** Assignment to a field by name. */
    method SetField(name: string, value: Bits) returns (r: Outcome)
      requires Valid()
      modifies `registers, `dirty, pll
      ensures Valid() && old(Coherents()) <= Coherents()
      ensures r.Unknown? <==> name !in fields
      ensures r.Unknown? ==> forall r: nat :: Reading(r) == old(Reading(r))
      ensures !r.Unknown? ==>
                && (r.Done? <==> Shr(value, Width(fields[name])) == {})
                && forall r: nat :: Reading(r) == PutAll(old(View()), fields[name], value)(r)
      ensures r.Unknown? || !live ==> pll.log == old(pll.log) && pll.memory == old(pll.memory)
      ensures old(Synchronised()) ==> Synchronised()
      ensures !r.Unknown? && !live ==> dirty == old(dirty) + RegistersOf(fields[name])
      ensures !r.Unknown? ==> registers.Keys == old(registers).Keys + RegistersOf(fields[name])
    {
      if name !in fields {
        return Unknown;
      }
      var fits := WriteValue(fields[name], value);
      r := if fits then Done else TooLarge;
    }

    method GetField(name: string) returns (value: Option<Bits>)
      requires Valid()
      modifies `registers, `dirty
      ensures Valid() && old(Coherents()) <= Coherents()
      ensures value == if name in fields then Some(GetAll(old(View()), fields[name])) else None
      ensures forall r: nat :: Reading(r) == old(Reading(r))
    {
      if name !in fields {
        return None;
      }
      var v := ReadValue(fields[name]);
      value := Some(v);
    }

    /** Sends the dirty registers of a range to the hardware: each once, in ascending order. */
    method WriteFields(first: nat, last: nat) returns (ghost order: seq<nat>)
      requires Valid() && live
      modifies `registers, `dirty, pll
      ensures Valid() && registers == old(registers) && old(Coherents()) <= Coherents()
      ensures Ascending(order) && forall r :: r in order <==> r in old(dirty) && first <= r <= last
      ensures forall r :: r in dirty <==> r in old(dirty) && !(first <= r <= last)
      ensures forall r :: r in order ==> r in registers && pll.Get(base + r) == registers[r]
      ensures pll.log == old(pll.log) + Writes(order, base, registers)
      ensures Kept(old(pll.memory), pll.memory, base, old(dirty))
      ensures old(Synchronised()) ==> Synchronised()
    {
      hide FieldWriter.Coherents, FieldWriter.Reading, FieldWriter.Synchronised, Ascending, Writes, Kept, InRange, At, AsSent, Lookup;
      order := [];
      var all := Sorted(dirty);
      NoWrites(base, registers, first, last);
      NothingAsSent(registers, base, pll.memory, pll.initial);
      KeptSame(pll.memory, base, dirty);
      assert all[..0] == [];
      for i := 0 to |all|
        invariant Valid() && live && registers == old(registers) && old(Coherents()) <= Coherents()
        invariant order == InRange(all[..i], first, last)
        invariant forall r :: r in dirty <==> r in old(dirty) && r !in order
        invariant forall r :: r in order ==> r in registers
        invariant AsSent(order, registers, base, pll.memory, pll.initial)
        invariant pll.log == old(pll.log) + Writes(order, base, registers)
        invariant Kept(old(pll.memory), pll.memory, base, old(dirty))
        invariant old(Synchronised()) ==> Synchronised()
      {
        var reg := all[i];
        assert all[..i + 1] == all[..i] + [reg];
        InRangeNext(all[..i], reg, first, last);
        if first <= reg <= last {
          KeptWrite(old(pll.memory), pll.memory, base, old(dirty), reg, registers[reg]);
          NextAsSent(order, reg, registers, base, pll.memory, pll.initial);
          WriteRegister(reg, registers[reg]);
          assert registers == old(registers);
          WritesNext(order, reg, base, registers);
          order := order + [reg];
        }
      }
      assert all[..|all|] == all;
      InRangeAscending(all, first, last);
      AllAsSent(order, registers, base, pll.memory, pll.initial);
    }

    /** Registers 0x171, 0x172, 0x17C and 0x17D are always given these values. */
    method FixedSetup()
      requires Valid() && live
      modifies `registers, `dirty, pll
      ensures Valid() && old(Coherents()) <= Coherents()
      ensures dirty == old(dirty) - {0x171, 0x172, 0x17C, 0x17D}
      ensures registers == WithFixed(old(registers))
      ensures pll.log == old(pll.log) + FixedWrites(base)
      ensures Kept(old(pll.memory), pll.memory, base, FIXED)
      ensures old(Synchronised()) ==> Synchronised()
    {
      hide FieldWriter.Coherents, FieldWriter.Reading, FieldWriter.Synchronised, Kept;
      ghost var m := pll.memory;
      KeptSame(m, base, FIXED);
      KeptWrite(m, pll.memory, base, FIXED, 0x171, BITS_AA);
      WriteRegister(0x171, BITS_AA);
      KeptWrite(m, pll.memory, base, FIXED, 0x172, BITS_02);
      WriteRegister(0x172, BITS_02);
      KeptWrite(m, pll.memory, base, FIXED, 0x17C, BITS_21);
      WriteRegister(0x17C, BITS_21);
      KeptWrite(m, pll.memory, base, FIXED, 0x17D, BITS_51);
      WriteRegister(0x17D, BITS_51);
    }

    /** The flush in two ranges with the fixed registers between: every dirty register is sent
        once, in ascending order within its range, unless it has a fixed value. */
    method ProgramRegisters() returns (ghost low: seq<nat>, ghost high: seq<nat>)
      requires Valid() && live
      modifies `registers, `dirty, pll
      ensures Valid() && old(Coherents()) <= Coherents()
      ensures registers == WithFixed(old(registers))
      ensures Ascending(low) && forall r :: r in low <==> r in old(dirty) && r <= 0x165
      ensures Ascending(high) && forall r :: r in high <==> r in old(dirty) && 0x166 <= r <= 0xFFF && !IsFixed(r)
      ensures pll.log == old(pll.log) + Writes(low, base, old(registers)) + FixedWrites(base) + Writes(high, base, registers)
      ensures forall r :: r in dirty ==> r > 0xFFF
      ensures Kept(old(pll.memory), pll.memory, base, old(dirty) + FIXED)
      ensures old(Synchronised()) ==> Synchronised()
    {
      hide FieldWriter.Coherents, FieldWriter.Reading, FieldWriter.Synchronised, Ascending, Writes, FixedWrites, Kept;
      ghost var m0, waiting := pll.memory, dirty;
      low := WriteFields(0, 0x165);
      ghost var m1 := pll.memory;
      FixedSetup();
      ghost var m2, left := pll.memory, dirty;
      high := WriteFields(0x166, 0xFFF);
      KeptJoin(m0, m1, m2, base, waiting, FIXED);
      KeptJoin(m0, m2, pll.memory, base, waiting + FIXED, left);
      assert waiting + FIXED + left == waiting + FIXED;
    }
  }

  const FIXED: set<nat> := {0x171, 0x172, 0x17C, 0x17D}
  const BITS_AA: Bits := {1, 3, 5, 7}
  const BITS_02: Bits := {1}
  const BITS_21: Bits := {0, 2, 4}
  const BITS_51: Bits := {0, 1, 4, 5}

  /** A new writer without fields that reads a register from its cache: the register is cached
      as 0 and will not be flushed, whatever the hardware holds. */
  method ReadUnknown(pll: Pll, reg: nat) returns (w: FieldWriter, value: Bits)
    requires pll.Get(reg) != {}
    modifies pll
    ensures value == {} && reg in w.registers && reg !in w.dirty && reg !in w.Coherents()
    ensures w.pll == pll && w.base == 0 && pll.Get(reg) == old(pll.Get(reg))
  {
    w := new FieldWriter(pll, 0, []);
    w.live := false;
    value := w.ReadRegister(reg);
  }

  function WithFixed(registers: map<nat, Bits>): map<nat, Bits> {
    registers[0x171 := BITS_AA][0x172 := BITS_02][0x17C := BITS_21][0x17D := BITS_51]
  }

  /** A cache as it reads: what it does not hold is 0. */
  function CacheView(registers: map<nat, Bits>): View {
    r => if r in registers then registers[r] else {}
  }

  lemma {:induction false} PutAllSame(view: View, other: View, subs: seq<SubField>, value: Bits, r: nat)
    requires forall k: nat :: view(k) == other(k)
    ensures PutAll(view, subs, value)(r) == PutAll(other, subs, value)(r)
  {
    hide Shr, Shl, Insert;
    if subs != [] {
      PutAllSame(Put(view, subs[0], value), Put(other, subs[0], value), subs[1..], Shr(value, subs[0].width), r);
    }
  }

  predicate IsFixed(r: nat) {
    r == 0x171 || r == 0x172 || r == 0x17C || r == 0x17D
  }

  /** The number that a register of eight bits holds. */
  function Number(b: Bits): nat {
    (if 0 in b then 0x01 else 0) + (if 1 in b then 0x02 else 0) + (if 2 in b then 0x04 else 0) +
    (if 3 in b then 0x08 else 0) + (if 4 in b then 0x10 else 0) + (if 5 in b then 0x20 else 0) +
    (if 6 in b then 0x40 else 0) + (if 7 in b then 0x80 else 0)
  }

  /** The fixed registers and the values they are given, and the value that resets the chip. */
  lemma FixedNumbers(base: nat)
    ensures var w := FixedWrites(base);
            && |w| == 4
            && w[0].address == base + 0x171 && Number(w[0].value) == 0xAA
            && w[1].address == base + 0x172 && Number(w[1].value) == 0x02
            && w[2].address == base + 0x17C && Number(w[2].value) == 21
            && w[3].address == base + 0x17D && Number(w[3].value) == 51
            && Number(RESET) == 0x80
            && forall k, i :: 0 <= k < 4 && i in w[k].value ==> i < 8
  {
  }

  ghost function FixedWrites(base: nat): seq<Write> {
    [Write(base + 0x171, BITS_AA), Write(base + 0x172, BITS_02), Write(base + 0x17C, BITS_21), Write(base + 0x17D, BITS_51)]
  }

  datatype Outcome = Done | TooLarge | Unknown

  ghost predicate Ascending(s: seq<nat>) {
    forall i, j :: 0 <= i < j < |s| ==> s[i] < s[j]
  }

  lemma AscendingAppend(s: seq<nat>, x: nat)
    requires Ascending(s) && forall r :: r in s ==> r < x
    ensures Ascending(s + [x])
  {
    assert forall i :: 0 <= i < |s| ==> s[i] in s;
  }

  function InRange(s: seq<nat>, first: nat, last: nat): seq<nat> {
    if s == [] then []
    else
      var n := |s| - 1;
      InRange(s[..n], first, last) + if first <= s[n] <= last then [s[n]] else []
  }

  /** The hardware has the cached values of those registers. */
  ghost predicate AsSent(order: seq<nat>, registers: map<nat, Bits>, base: nat, memory: map<nat, Bits>, initial: nat -> Bits) {
    forall r :: r in order ==> r in registers && Lookup(memory, initial, base + r) == registers[r]
  }

  lemma NothingAsSent(registers: map<nat, Bits>, base: nat, memory: map<nat, Bits>, initial: nat -> Bits)
    ensures AsSent([], registers, base, memory, initial)
  {
  }

  lemma NextAsSent(order: seq<nat>, reg: nat, registers: map<nat, Bits>, base: nat, memory: map<nat, Bits>, initial: nat -> Bits)
    requires AsSent(order, registers, base, memory, initial) && reg in registers
    ensures AsSent(order + [reg], registers, base, memory[base + reg := registers[reg]], initial)
  {
  }

  lemma AllAsSent(order: seq<nat>, registers: map<nat, Bits>, base: nat, memory: map<nat, Bits>, initial: nat -> Bits)
    requires AsSent(order, registers, base, memory, initial)
    ensures forall r :: r in order ==> r in registers && Lookup(memory, initial, base + r) == registers[r]
  {
  }

  lemma NoWrites(base: nat, registers: map<nat, Bits>, first: nat, last: nat)
    ensures InRange([], first, last) == [] && Writes([], base, registers) == []
  {
  }

  lemma InRangeNext(s: seq<nat>, reg: nat, first: nat, last: nat)
    ensures InRange(s + [reg], first, last) == InRange(s, first, last) + if first <= reg <= last then [reg] else []
  {
  }

  lemma {:induction false} InRangeAscending(s: seq<nat>, first: nat, last: nat)
    requires Ascending(s)
    ensures Ascending(InRange(s, first, last))
    ensures forall r :: r in InRange(s, first, last) <==> r in s && first <= r <= last
  {
    if s != [] {
      var n := |s| - 1;
      InRangeAscending(s[..n], first, last);
      assert s == s[..n] + [s[n]];
      assert forall r :: r in s[..n] ==> r < s[n];
      AscendingAppend(InRange(s[..n], first, last), s[n]);
    }
  }

  /** The writes that send registers one after the other. */
  ghost function Writes(order: seq<nat>, base: nat, registers: map<nat, Bits>): seq<Write>
    requires forall r :: r in order ==> r in registers
  {
    seq(|order|, i requires 0 <= i < |order| => Write(base + order[i], registers[order[i]]))
  }

  /** The writes made for some registers, one for each, in their order. */
  lemma WritesAre(order: seq<nat>, base: nat, registers: map<nat, Bits>)
    requires forall r :: r in order ==> r in registers
    ensures |Writes(order, base, registers)| == |order|
    ensures forall i :: 0 <= i < |order| ==>
              Writes(order, base, registers)[i].address == base + order[i] &&
              Writes(order, base, registers)[i].value == registers[order[i]]
  {
  }

  lemma WritesNext(order: seq<nat>, reg: nat, base: nat, registers: map<nat, Bits>)
    requires reg in registers && forall r :: r in order ==> r in registers
    ensures forall r :: r in order + [reg] ==> r in registers
    ensures Writes(order + [reg], base, registers) == Writes(order, base, registers) + [Write(base + reg, registers[reg])]
  {
  }

  /** The elements of a set in ascending order. */
  method Sorted(s: set<nat>) returns (order: seq<nat>)
    ensures Ascending(order) && forall r :: r in order <==> r in s
  {
    order := [];
    var rest := s;
    while rest != {}
      invariant Ascending(order) && rest <= s
      invariant forall r :: r in order <==> r in s && r !in rest
      invariant forall r, q :: r in order && q in rest ==> r < q
      decreases |rest|
    {
      var least := Least(rest);
      AscendingAppend(order, least);
      order := order + [least];
      rest := rest - {least};
    }
  }

  method Least(s: set<nat>) returns (least: nat)
    requires s != {}
    ensures least in s && forall r :: r in s ==> least <= r
  {
    least :| least in s;
    var rest := s - {least};
    while rest != {}
      invariant least in s && rest <= s
      invariant forall r :: r in s && r !in rest ==> least <= r
      decreases |rest|
    {
      var r :| r in rest;
      if r < least {
        least := r;
      }
      rest := rest - {r};
    }
  }

  /** A field that reads its default has every part of it at the part's own default. */
  lemma {:induction false} PartsAtDefault(view: View, parts: seq<Part>)
    requires PartsFit(parts) && GetAll(view, SubsOf(parts)) == DefaultOf(parts)
    ensures forall i :: 0 <= i < |parts| ==> Extract(view(parts[i].sub.reg), parts[i].sub) == parts[i].default
  {
    hide Slice;
    forall i | 0 <= i < |parts| ensures Extract(view(parts[i].sub.reg), parts[i].sub) == parts[i].default {
      DefaultSlice(parts, i);
      GetAllSlice(view, SubsOf(parts), |parts| - 1 - i);
    }
  }

  lemma NoPart(view: View, value: Bits)
    ensures PutAll(view, [], value) == view && Shr(value, Width([])) == value && RegistersOf([]) == {}
  {
  }

  lemma NextPart(view: View, s: SubField, rest: seq<SubField>, value: Bits)
    ensures PutAll(view, [s] + rest, value) == PutAll(Put(view, s, value), rest, Shr(value, s.width))
    ensures Shr(value, Width([s] + rest)) == Shr(Shr(value, s.width), Width(rest))
  {
    assert ([s] + rest)[1..] == rest;
    ShrTwice(value, s.width, Width(rest));
  }

  // ------------------------------------------------------------------------------------
  // The whole chip

  /** One writer's flush: the order of its registers and the values they had. */
  datatype Batch = Batch(order: seq<nat>, base: nat, registers: map<nat, Bits>)
  {
    ghost predicate Exact(dirty: set<nat>, first: nat, last: nat) {
      && Ascending(order) && (forall r :: r in order <==> r in dirty && first <= r <= last)
      && forall r :: r in order ==> r in registers
    }

    ghost function Sent(): seq<Write>
      requires forall r :: r in order ==> r in registers
    {
      Writes(order, base, registers)
    }
  }

  ghost predicate Sendable(bs: seq<Batch>) {
    forall i :: 0 <= i < |bs| ==> forall r :: r in bs[i].order ==> r in bs[i].registers
  }

  ghost function SentAll(bs: seq<Batch>): seq<Write>
    requires Sendable(bs)
  {
    if bs == [] then [] else SentAll(bs[..|bs| - 1]) + bs[|bs| - 1].Sent()
  }

  lemma SentNext(bs: seq<Batch>, b: Batch)
    requires Sendable(bs) && forall r :: r in b.order ==> r in b.registers
    ensures Sendable(bs + [b]) && SentAll(bs + [b]) == SentAll(bs) + b.Sent()
  {
    assert (bs + [b])[..|bs|] == bs;
  }

  lemma {:induction false} NothingSent(bs: seq<Batch>)
    requires forall i :: 0 <= i < |bs| ==> bs[i].order == []
    ensures Sendable(bs) && SentAll(bs) == []
  {
    if bs != [] {
      NothingSent(bs[..|bs| - 1]);
    }
  }

  lemma NothingDirty(b: Batch, dirty: set<nat>)
    requires b.Exact(dirty, 0, LAST_REGISTER) && forall r :: r in dirty ==> r > LAST_REGISTER
    ensures b.order == []
  {
    var first := if b.order == [] then 0 else b.order[0];
    assert b.order != [] ==> first in b.order;
  }

  lemma OnlyWaiting(b: Batch, later: set<nat>, regs: set<nat>)
    requires b.Exact(later + regs, 0, LAST_REGISTER) && forall r :: r in later ==> r > LAST_REGISTER
    ensures b.Exact(regs, 0, LAST_REGISTER)
  {
    hide Ascending;
  }

  const LAST_REGISTER := 0xFFF
  const RESET: Bits := {7}

  /** The main writer of the chip and the writers of its outputs, on the same hardware. */
  class Settings {
    const main: FieldWriter
    const outputs: seq<FieldWriter>

    ghost predicate Valid()
      reads this, main, outputs
    {
      && main.Valid() && main !in outputs
      && (forall i :: 0 <= i < |outputs| ==> outputs[i].Valid() && outputs[i].pll == main.pll)
      && (forall i, j :: 0 <= i < j < |outputs| ==> outputs[i] != outputs[j])
    }

    ghost predicate AllLive(live: bool)
      reads this, main, outputs
    {
      main.live == live && forall i :: 0 <= i < |outputs| ==> outputs[i].live == live
    }

    constructor (main: FieldWriter, outputs: seq<FieldWriter>)
      requires main.Valid() && main !in outputs
      requires forall i :: 0 <= i < |outputs| ==> outputs[i].Valid() && outputs[i].pll == main.pll
      requires forall i, j :: 0 <= i < j < |outputs| ==> outputs[i] != outputs[j]
      ensures Valid() && this.main == main && this.outputs == outputs
    {
      this.main, this.outputs := main, outputs;
    }

    method EnableWrite(live: bool)
      requires Valid()
      modifies main`live, outputs`live
      ensures Valid() && AllLive(live)
    {
      main.live := live;
      for i := 0 to |outputs|
        invariant Valid() && main.live == live
        invariant forall k :: 0 <= k < i ==> outputs[k].live == live
      {
        outputs[i].live := live;
      }
    }

    /** The registers the main writer uses. */
    ghost function MainRegisters(): set<nat>
      reads main`registers
    {
      main.registers.Keys + FIXED + {0}
    }

    ghost function CacheOf(i: nat): Cache
      requires i < |outputs|
      reads outputs`registers, outputs`dirty
    {
      Cache(outputs[i].base, outputs[i].registers.Keys, outputs[i].registers, outputs[i].dirty)
    }

    ghost function OutputCaches(n: nat): (cs: seq<Cache>)
      requires n <= |outputs|
      reads outputs`registers, outputs`dirty
      ensures |cs| == n && forall i :: 0 <= i < n ==> cs[i] == CacheOf(i)
    {
      if n == 0 then [] else OutputCaches(n - 1) + [CacheOf(n - 1)]
    }

    /** What all the writers know, the main one first. */
    ghost function Caches(): (cs: seq<Cache>)
      reads main`registers, main`dirty, outputs`registers, outputs`dirty
      ensures |cs| == |outputs| + 1
    {
      [Cache(main.base, MainRegisters(), main.registers, main.dirty)] + OutputCaches(|outputs|)
    }

    /** No two writers use the same address, and whatever is cached waits to be flushed or
        agrees with the hardware. */
    ghost predicate InStep()
      reads main`registers, main`dirty, outputs`registers, outputs`dirty, main.pll
    {
      AllInSync(Caches(), main.pll.memory, main.pll.initial)
    }

    /** One output's flush does not disturb what the others know. */
    method FlushOutput(i: nat, o: FieldWriter) returns (ghost order: seq<nat>)
      requires Valid() && AllLive(true) && i < |outputs| && o == outputs[i]
      modifies o`registers, o`dirty, main.pll
      ensures Valid() && AllLive(true)
      ensures o.registers == old(o.registers)
      ensures Ascending(order) && forall r :: r in order <==> r in old(o.dirty) && 0 <= r <= LAST_REGISTER
      ensures forall r :: r in order ==> r in o.registers
      ensures forall r :: r in o.dirty ==> r > LAST_REGISTER
      ensures main.pll.log == old(main.pll.log) + Writes(order, o.base, o.registers)
      ensures old(InStep()) ==> InStep()
    {
      hide FieldWriter.Coherents, FieldWriter.Reading, FieldWriter.Synchronised, Ascending, Writes, Kept, At,
           AllInSync, InSync;
      ghost var waiting, was, memory := o.dirty, Caches(), main.pll.memory;
      o.SynchronisedIs(o.registers.Keys);
      order := o.WriteFields(0, LAST_REGISTER);
      o.SynchronisedIs(o.registers.Keys);
      assert Caches() == was[i + 1 := CacheOf(i)];
      if old(InStep()) {
        SyncAt(was, memory, main.pll.initial, i + 1);
        OneInSync(was, i + 1, CacheOf(i), memory, main.pll.memory, main.pll.initial, waiting);
      }
    }

    /** Flushes the outputs one after the other. */
    method FlushOutputs() returns (ghost sent: seq<Batch>)
      requires Valid() && AllLive(true)
      modifies outputs`registers, outputs`dirty, main.pll
      ensures Valid() && AllLive(true)
      ensures |sent| == |outputs| && Sendable(sent)
      ensures forall i :: 0 <= i < |outputs| ==>
                && sent[i].base == outputs[i].base && sent[i].registers == outputs[i].registers == old(outputs[i].registers)
                && sent[i].Exact(old(outputs[i].dirty), 0, LAST_REGISTER)
                && (forall r :: r in outputs[i].dirty ==> r > LAST_REGISTER)
      ensures main.pll.log == old(main.pll.log) + SentAll(sent)
      ensures old(InStep()) ==> InStep()
    {
      hide FieldWriter.Coherents, FieldWriter.Reading, Ascending, Writes, SentAll, Settings.InStep;
      sent := [];
      NothingSent([]);
      for i := 0 to |outputs|
        invariant Valid() && AllLive(true)
        invariant |sent| == i && Sendable(sent)
        invariant forall k :: 0 <= k < i ==>
                    && sent[k].base == outputs[k].base && sent[k].registers == outputs[k].registers == old(outputs[k].registers)
                    && sent[k].Exact(old(outputs[k].dirty), 0, LAST_REGISTER)
                    && (forall r :: r in outputs[k].dirty ==> r > LAST_REGISTER)
        invariant forall k :: i <= k < |outputs| ==>
                    outputs[k].dirty == old(outputs[k].dirty) && outputs[k].registers == old(outputs[k].registers)
        invariant main.pll.log == old(main.pll.log) + SentAll(sent)
        invariant old(InStep()) ==> InStep()
      {
        var order := FlushOutput(i, outputs[i]);
        ghost var batch := Batch(order, outputs[i].base, outputs[i].registers);
        SentNext(sent, batch);
        sent := sent + [batch];
      }
    }

    ghost predicate OutputsClean()
      reads outputs`dirty
    {
      forall i, r :: 0 <= i < |outputs| && r in outputs[i].dirty ==> r > LAST_REGISTER
    }

    ghost predicate MainClean()
      reads main`dirty
    {
      forall r :: r in main.dirty ==> r > LAST_REGISTER
    }

    /** Flushing the outputs once more sends nothing. */
    method FlushAgain()
      requires Valid() && AllLive(true) && OutputsClean()
      modifies outputs`registers, outputs`dirty, main.pll
      ensures Valid() && AllLive(true) && OutputsClean()
      ensures main.pll.log == old(main.pll.log)
      ensures old(InStep()) ==> InStep()
    {
      hide FieldWriter.Coherents, FieldWriter.Reading, Ascending, Writes, SentAll, Settings.InStep;
      ghost var none := FlushOutputs();
      forall i | 0 <= i < |none| ensures none[i].order == [] {
        NothingDirty(none[i], old(outputs[i].dirty));
      }
      NothingSent(none);
    }

    /** A change of the main writer only, which stays in step and touches its own registers. */
    lemma MainChanged(was: seq<Cache>, memory: map<nat, Bits>, touched: set<nat>)
      requires |was| == |outputs| + 1 && AllInSync(was, memory, main.pll.initial)
      requires was[0].base == main.base && was[0].owned == MainRegisters()
      requires Caches()[1..] == was[1..]
      requires main.Synchronised() && Kept(memory, main.pll.memory, main.base, touched) && touched <= MainRegisters()
      ensures InStep()
    {
      hide FieldWriter.Synchronised, AllInSync, InSync, Kept;
      main.SynchronisedIs(MainRegisters());
      OneInSync(was, 0, Caches()[0], memory, main.pll.memory, main.pll.initial, touched);
      assert Caches() == was[0 := Caches()[0]];
    }

    lemma MainInStep()
      requires InStep()
      ensures main.Synchronised()
    {
      hide FieldWriter.Synchronised, InSync;
      SyncAt(Caches(), main.pll.memory, main.pll.initial, 0);
      main.SynchronisedIs(MainRegisters());
    }

    method ResetChip()
      requires Valid() && AllLive(true)
      modifies main`registers, main`dirty, main.pll
      ensures Valid() && AllLive(true)
      ensures main.registers == old(main.registers)[0 := RESET] && main.dirty == old(main.dirty) - {0}
      ensures main.pll.log == old(main.pll.log) + [Write(main.base + 0, RESET)]
      ensures old(InStep()) ==> InStep()
      ensures MainRegisters() == old(MainRegisters())
    {
      hide FieldWriter.Coherents, FieldWriter.Reading, FieldWriter.Synchronised, AllInSync, Kept;
      ghost var was, memory := Caches(), main.pll.memory;
      if InStep() {
        MainInStep();
      }
      KeptSame(memory, main.base, {0});
      KeptWrite(memory, memory, main.base, {0}, 0, RESET);
      main.WriteRegister(0, RESET);
      if old(InStep()) {
        MainChanged(was, memory, {0});
      }
    }

    /** The registers of the main writer in two ranges with the fixed ones between. */
    method ProgramMain() returns (ghost low: Batch, ghost high: Batch)
      requires Valid() && AllLive(true)
      modifies main`registers, main`dirty, main.pll
      ensures Valid() && AllLive(true) && MainClean()
      ensures low.Exact(old(main.dirty), 0, 0x165) && low.base == main.base && low.registers == old(main.registers)
      ensures high.Exact(old(main.dirty) - FIXED, 0x166, LAST_REGISTER) && high.base == main.base
      ensures high.registers == main.registers == WithFixed(old(main.registers))
      ensures main.pll.log == old(main.pll.log) + low.Sent() + FixedWrites(main.base) + high.Sent()
      ensures old(InStep()) ==> InStep()
      ensures MainRegisters() == old(MainRegisters())
    {
      hide FieldWriter.Coherents, FieldWriter.Reading, FieldWriter.Synchronised, AllInSync, InSync, Kept, Ascending,
           Writes, FixedWrites;
      ghost var was, memory, registers, waiting := Caches(), main.pll.memory, main.registers, main.dirty;
      if InStep() {
        MainInStep();
      }
      ghost var lowOrder, highOrder := main.ProgramRegisters();
      low := Batch(lowOrder, main.base, registers);
      high := Batch(highOrder, main.base, main.registers);
      if old(InStep()) {
        MainChanged(was, memory, waiting + FIXED);
      }
    }

    /** Reset, the outputs, and the main registers. */
    method Program() returns (ghost outs: seq<Batch>, ghost low: Batch, ghost high: Batch)
      requires Valid() && AllLive(true)
      modifies main`registers, main`dirty, outputs`registers, outputs`dirty, main.pll
      ensures Valid() && AllLive(true) && MainClean() && OutputsClean()
      ensures |outs| == |outputs| && Sendable(outs)
      ensures forall i :: 0 <= i < |outputs| ==>
                && outs[i].base == outputs[i].base && outs[i].registers == old(outputs[i].registers)
                && outs[i].Exact(old(outputs[i].dirty), 0, LAST_REGISTER)
      ensures low.Exact(old(main.dirty) - {0}, 0, 0x165) && low.base == main.base
      ensures low.registers == old(main.registers)[0 := RESET]
      ensures high.Exact(old(main.dirty) - {0} - FIXED, 0x166, LAST_REGISTER) && high.base == main.base
      ensures high.registers == main.registers == WithFixed(low.registers)
      ensures main.pll.log == old(main.pll.log) + [Write(main.base + 0, RESET)] + SentAll(outs) + low.Sent() +
                              FixedWrites(main.base) + high.Sent()
      ensures old(InStep()) ==> InStep()
      ensures MainRegisters() == old(MainRegisters())
    {
      hide FieldWriter.Coherents, FieldWriter.Reading, FixedWrites, SentAll, Settings.InStep, WithFixed,
           Batch.Exact, Batch.Sent;
      ResetChip();
      outs := FlushOutputs();
      low, high := ProgramMain();
    }

    /** A change to one field in the cache only, flushed at the end with whatever is dirty. */
    method WithCache(name: string, value: Bits) returns (ghost rest: Batch)
      requires Valid() && name in main.fields && AllLive(true) && MainClean() && OutputsClean()
      modifies main`live, main`registers, main`dirty, outputs`live, outputs`registers, outputs`dirty, main.pll
      ensures Valid() && AllLive(true) && MainClean() && OutputsClean()
      ensures rest.Exact(RegistersOf(main.fields[name]), 0, LAST_REGISTER) && rest.base == main.base
      ensures forall r: nat :: CacheView(rest.registers)(r) ==
                               PutAll(CacheView(old(main.registers)), main.fields[name], value)(r)
      ensures main.pll.log == old(main.pll.log) + rest.Sent()
      ensures RegistersOf(main.fields[name]) <= old(MainRegisters()) && old(InStep()) ==> InStep()
    {
      hide FieldWriter.Coherents, Settings.InStep, SentAll, PutAll, RegistersOf, Batch.Exact, Batch.Sent;
      EnableWrite(false);
      SetCached(name, value);
      EnableWrite(true);
      FlushAgain();
      rest := FlushMain();
      OnlyWaiting(rest, old(main.dirty), RegistersOf(main.fields[name]));
    }

    method SetCached(name: string, value: Bits)
      requires Valid() && name in main.fields && AllLive(false)
      modifies main`registers, main`dirty, main.pll
      ensures Valid() && AllLive(false)
      ensures main.dirty == old(main.dirty) + RegistersOf(main.fields[name])
      ensures forall r: nat :: CacheView(main.registers)(r) ==
                               PutAll(CacheView(old(main.registers)), main.fields[name], value)(r)
      ensures main.pll.log == old(main.pll.log) && main.pll.memory == old(main.pll.memory)
      ensures RegistersOf(main.fields[name]) <= old(MainRegisters()) && old(InStep()) ==> InStep()
    {
      hide FieldWriter.Coherents, FieldWriter.Synchronised, AllInSync, Kept, PutAll, RegistersOf;
      ghost var was, memory, view, registers := Caches(), main.pll.memory, main.View(), main.registers;
      if InStep() {
        MainInStep();
      }
      var _ := main.SetField(name, value);
      forall r: nat ensures PutAll(view, main.fields[name], value)(r) ==
                            PutAll(CacheView(registers), main.fields[name], value)(r) {
        PutAllSame(view, CacheView(registers), main.fields[name], value, r);
      }
      if RegistersOf(main.fields[name]) <= old(MainRegisters()) && old(InStep()) {
        KeptSame(memory, main.base, {});
        MainChanged(was, memory, {});
      }
    }

    method FlushMain() returns (ghost batch: Batch)
      requires Valid() && AllLive(true)
      modifies main`registers, main`dirty, main.pll
      ensures Valid() && AllLive(true) && MainClean()
      ensures batch.Exact(old(main.dirty), 0, LAST_REGISTER) && batch.base == main.base
      ensures batch.registers == main.registers == old(main.registers)
      ensures main.pll.log == old(main.pll.log) + batch.Sent()
      ensures old(InStep()) ==> InStep()
    {
      hide FieldWriter.Coherents, FieldWriter.Reading, FieldWriter.Synchronised, AllInSync, Kept, Ascending, Writes;
      ghost var was, memory, waiting := Caches(), main.pll.memory, main.dirty;
      if InStep() {
        MainInStep();
      }
      ghost var order := main.WriteFields(0, LAST_REGISTER);
      batch := Batch(order, main.base, main.registers);
      if old(InStep()) {
        MainChanged(was, memory, waiting);
      }
    }

    /** Every cached register up to the last one agrees with the hardware. */
    ghost predicate Agreed()
      reads main, outputs, main.pll
    {
      && (forall r :: r in main.registers && r <= LAST_REGISTER ==> main.registers[r] == main.pll.Get(main.base + r))
      && (forall i, r :: 0 <= i < |outputs| && r in outputs[i].registers && r <= LAST_REGISTER ==>
            outputs[i].registers[r] == main.pll.Get(outputs[i].base + r))
    }

    lemma CleanAgreed()
      requires InStep() && MainClean() && OutputsClean()
      ensures Agreed()
    {
      hide AllInSync;
      var cs := Caches();
      SyncAt(cs, main.pll.memory, main.pll.initial, 0);
      forall i, r | 0 <= i < |outputs| && r in outputs[i].registers && r <= LAST_REGISTER
        ensures outputs[i].registers[r] == main.pll.Get(outputs[i].base + r)
      {
        SyncAt(cs, main.pll.memory, main.pll.initial, i + 1);
        assert cs[i + 1] == CacheOf(i);
      }
    }

    /** Sets up the chip, and at the end clears the one field that the reset left set. */
    method WriteConfig() returns (ghost outs: seq<Batch>, ghost low: Batch, ghost high: Batch, ghost rest: Batch)
      requires Valid() && "SYSREF_CLR" in main.fields
      modifies main`live, main`registers, main`dirty, outputs`live, outputs`registers, outputs`dirty, main.pll
      ensures Valid() && AllLive(true) && MainClean() && OutputsClean()
      ensures |outs| == |outputs| && Sendable(outs)
      ensures forall i :: 0 <= i < |outputs| ==>
                && outs[i].base == outputs[i].base && outs[i].registers == old(outputs[i].registers)
                && outs[i].Exact(old(outputs[i].dirty), 0, LAST_REGISTER)
      ensures low.Exact(old(main.dirty) - {0}, 0, 0x165) && low.base == main.base
      ensures low.registers == old(main.registers)[0 := RESET]
      ensures high.Exact(old(main.dirty) - {0} - FIXED, 0x166, LAST_REGISTER) && high.base == main.base
      ensures high.registers == WithFixed(low.registers)
      ensures rest.Exact(RegistersOf(main.fields["SYSREF_CLR"]), 0, LAST_REGISTER) && rest.base == main.base
      ensures forall r: nat :: CacheView(rest.registers)(r) ==
                               PutAll(CacheView(high.registers), main.fields["SYSREF_CLR"], {})(r)
      ensures main.pll.log == old(main.pll.log) + [Write(main.base + 0, RESET)] + SentAll(outs) + low.Sent() +
                              FixedWrites(main.base) + high.Sent() + rest.Sent()
      ensures RegistersOf(main.fields["SYSREF_CLR"]) <= old(MainRegisters()) && old(InStep()) ==> InStep() && Agreed()
    {
      hide FieldWriter.Coherents, SentAll, RegistersOf, FixedWrites, WithFixed, PutAll, Batch.Exact, Batch.Sent,
           Settings.InStep, Settings.Agreed;
      EnableWrite(true);
      outs, low, high := Program();
      rest := WithCache("SYSREF_CLR", {});
      if InStep() {
        CleanAgreed();
      }
    }
  }
}
