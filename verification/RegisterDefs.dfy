/** Register definitions: parsing with running offsets, and flattening the shared definitions,
    against one direct layout of the definition file. */
module RegisterDefs {
  import opened Common

  datatype Rw = R | W | RW | WP

  // ------------------------------------------------------------------------------------
  // Definition files, as indented lines already split into words

  /** A line below a register: bits left out, or a field, which may name its own offset. */
  datatype FieldDef =
    | Skip(count: nat)
    | FieldDef(name: string, count: nat, isBit: bool, at: Option<nat>, rw: Option<Rw>)

  datatype RegLine = RegLine(name: string, rw: Option<Rw>, fields: seq<FieldDef>)

  datatype Entry =
    | RegDef(reg: RegLine)
    | ArrayDef(name: string, count: nat, rw: Rw)
    | PairDef(regs: seq<RegLine>)
    | OverlayDef(name: string, rw: Rw, regs: seq<RegLine>)
    | UnionDef(name: string, body: seq<Entry>)
    | GroupDef(name: string, hidden: bool, body: seq<Entry>)
    | SharedName(key: string, name: string, fields: seq<FieldDef>)

  datatype TopEntry =
    | SharedReg(reg: RegLine)
    | SharedGroup(name: string, hidden: bool, body: seq<Entry>)
    | TopGroup(name: string, hidden: bool, body: seq<Entry>)
    | Ungrouped

  type Sources = map<string, Entry>

  // ------------------------------------------------------------------------------------
  // The results of parsing

  datatype Field = Field(name: string, offset: nat, count: nat, isBit: bool, rw: Option<Rw>)

  datatype Reg = Reg(name: string, offset: nat, rw: Rw, fields: seq<Field>)

  datatype Node =
    | Group(name: string, base: nat, length: nat, hidden: bool, content: seq<Node>, definition: Option<Node>)
    | Register(reg: Reg, original: Option<Reg>)
    | Array(name: string, base: nat, length: nat, rw: Rw)
    | RwPair(registers: seq<Reg>)
    | Overlay(name: string, offset: nat, rw: Rw, registers: seq<Reg>)
    | Union(name: string, base: nat, length: nat, content: seq<Node>)

  /** The same with definitions replaced by what they stand for. */
  datatype Flat =
    | FlatGroup(name: string, base: nat, length: nat, hidden: bool, content: seq<Flat>)
    | FlatRegister(reg: Reg)
    | FlatArray(name: string, base: nat, length: nat, rw: Rw)
    | FlatPair(registers: seq<Reg>)
    | FlatOverlay(name: string, offset: nat, rw: Rw, registers: seq<Reg>)
    | FlatUnion(name: string, base: nat, length: nat, content: seq<Flat>)
  {
    /** The addresses an entry takes up. */
    function Start(): nat {
      match this
      case FlatGroup(_, b, _, _, _) => b
      case FlatRegister(r) => r.offset
      case FlatArray(_, b, _, _) => b
      case FlatPair(rs) => if rs == [] then 0 else rs[0].offset
      case FlatOverlay(_, o, _, _) => o
      case FlatUnion(_, b, _, _) => b
    }

    function Size(): nat {
      match this
      case FlatGroup(_, _, n, _, _) => n
      case FlatArray(_, _, n, _) => n
      case FlatUnion(_, _, n, _) => n
      case _ => 1
    }
  }

  // ------------------------------------------------------------------------------------
  // Flattening

  function Moved(r: Reg, shift: nat): Reg {
    r.(offset := r.offset + shift)
  }

  function MovedAll(rs: seq<Reg>, shift: nat): (s: seq<Reg>)
    ensures |s| == |rs|
  {
    seq(|rs|, i requires 0 <= i < |rs| => Moved(rs[i], shift))
  }

  /** A group with a definition takes its content from there, moved to the group's own base; a
      register with a definition stays where it is. */
  function Flatten(shift: nat, n: Node): Flat
    decreases n
  {
    match n
    case Group(name, base, length, hidden, content, definition) =>
      FlatGroup(name, base + shift, length, hidden,
                if definition.Some? && definition.value.Group?
                then FlattenAll(shift + base, definition.value.content)
                else FlattenAll(shift, content))
    case Register(reg, original) =>
      FlatRegister(if original.Some? then reg.(fields := original.value.fields + reg.fields) else Moved(reg, shift))
    case Array(name, base, length, rw) => FlatArray(name, base + shift, length, rw)
    case RwPair(regs) => FlatPair(MovedAll(regs, shift))
    case Overlay(name, offset, rw, regs) => FlatOverlay(name, offset + shift, rw, regs)
    case Union(name, base, length, content) => FlatUnion(name, base + shift, length, FlattenAll(shift, content))
  }

  function FlattenAll(shift: nat, ns: seq<Node>): (fs: seq<Flat>)
    ensures |fs| == |ns|
    decreases ns
  {
    if ns == [] then []
    else FlattenAll(shift, ns[..|ns| - 1]) + [Flatten(shift, ns[|ns| - 1])]
  }

  // ------------------------------------------------------------------------------------
  // Direct layout

  function FieldEnd(defs: seq<FieldDef>): nat {
    if defs == [] then 0
    else match defs[|defs| - 1]
      case Skip(n) => FieldEnd(defs[..|defs| - 1]) + n
      case FieldDef(_, n, _, at, _) => (if at.Some? then at.value else FieldEnd(defs[..|defs| - 1])) + n
  }

  function FieldsOf(defs: seq<FieldDef>): seq<Field> {
    if defs == [] then []
    else match defs[|defs| - 1]
      case Skip(_) => FieldsOf(defs[..|defs| - 1])
      case FieldDef(name, n, bit, at, rw) =>
        FieldsOf(defs[..|defs| - 1]) +
        [Field(name, if at.Some? then at.value else FieldEnd(defs[..|defs| - 1]), n, bit, rw)]
  }

  /** Fields that leave their offsets to the parser are disjoint and in order. */
  lemma {:induction false} FieldsDisjoint(defs: seq<FieldDef>)
    requires forall i :: 0 <= i < |defs| && defs[i].FieldDef? ==> defs[i].at.None?
    ensures forall i :: 0 <= i < |FieldsOf(defs)| ==> FieldsOf(defs)[i].offset + FieldsOf(defs)[i].count <= FieldEnd(defs)
    ensures forall i, j :: 0 <= i < j < |FieldsOf(defs)| ==>
              FieldsOf(defs)[i].offset + FieldsOf(defs)[i].count <= FieldsOf(defs)[j].offset
  {
    if defs != [] {
      FieldsDisjoint(defs[..|defs| - 1]);
    }
  }

  /** The numbers of bits of some definitions added up. */
  function Bits(defs: seq<FieldDef>): nat {
    if defs == [] then 0 else defs[0].count + Bits(defs[1..])
  }

  function Named(defs: seq<FieldDef>): nat {
    if defs == [] then 0 else (if defs[0].FieldDef? then 1 else 0) + Named(defs[1..])
  }

  lemma {:induction false} BitsNext(defs: seq<FieldDef>)
    requires defs != []
    ensures Bits(defs) == Bits(defs[..|defs| - 1]) + defs[|defs| - 1].count
    ensures Named(defs) == Named(defs[..|defs| - 1]) + if defs[|defs| - 1].FieldDef? then 1 else 0
  {
    if |defs| > 1 {
      BitsNext(defs[1..]);
      assert defs[1..][..|defs| - 2] == defs[..|defs| - 1][1..];
    }
  }

  /** Where counting starts for a definition: at the last place named before it, or at 0. */
  predicate CountsFrom(defs: seq<FieldDef>, i: nat, from: nat, start: nat) {
    && from <= i <= |defs|
    && (if from < |defs| && defs[from].FieldDef? && defs[from].at.Some? then start == defs[from].at.value
        else from == 0 && start == 0)
    && forall j :: from < j < i ==> !(defs[j].FieldDef? && defs[j].at.Some?)
  }

  lemma {:induction false} EndExact(defs: seq<FieldDef>, from: nat, start: nat)
    requires CountsFrom(defs, |defs|, from, start)
    ensures FieldEnd(defs) == if defs == [] then 0 else start + Bits(defs[from..])
  {
    if defs != [] {
      var n := |defs| - 1;
      BitsNext(defs[from..]);
      assert defs[from..][..n - from] == defs[..n][from..];
      if from < n {
        EndExact(defs[..n], from, start);
      } else if n > 0 || (defs[0].FieldDef? && defs[0].at.Some?) {
        assert defs[from..] == [defs[n]];
      }
    }
  }

  /** Every named field is in its place in the list, with its name, size and access.  It stands
      where it says itself, or else after all the bits counted since the last place named before
      it. */
  lemma {:induction false} FieldExact(defs: seq<FieldDef>, i: nat, from: nat, start: nat)
    requires i < |defs| && defs[i].FieldDef? && CountsFrom(defs, i, from, start) && from < |defs|
    ensures |FieldsOf(defs)| == Named(defs)
    ensures Named(defs[..i]) < |FieldsOf(defs)|
    ensures var f := FieldsOf(defs)[Named(defs[..i])];
            && f.name == defs[i].name && f.count == defs[i].count && f.isBit == defs[i].isBit && f.rw == defs[i].rw
            && f.offset == if defs[i].at.Some? then defs[i].at.value else start + Bits(defs[from..i])
  {
    FieldCount(defs);
    var n := |defs| - 1;
    if i < n {
      assert defs[..n][..i] == defs[..i] && defs[..n][from..i] == defs[from..i];
      FieldExact(defs[..n], i, from, start);
      FieldCount(defs[..n]);
    } else {
      FieldCount(defs[..n]);
      if defs[i].at.None? && i > 0 {
        EndExact(defs[..i], from, start);
        assert defs[..i][from..] == defs[from..i];
      }
    }
  }

  lemma {:induction false} FieldCount(defs: seq<FieldDef>)
    ensures |FieldsOf(defs)| == Named(defs)
  {
    if defs != [] {
      FieldCount(defs[..|defs| - 1]);
      BitsNext(defs);
    }
  }

  /** How many registers an entry takes up. */
  function SizeOf(e: Entry, src: Sources): nat
    decreases |src|, e
  {
    match e
    case ArrayDef(_, count, _) => count
    case UnionDef(_, body) => Largest(body)
    case GroupDef(_, _, body) => TotalSize(body, src)
    case SharedName(key, _, _) => if key in src then SizeOf(src[key], map[]) else 0
    case _ => 1
  }

  function TotalSize(body: seq<Entry>, src: Sources): nat
    decreases |src|, body
  {
    if body == [] then 0
    else TotalSize(body[..|body| - 1], src) + SizeOf(body[|body| - 1], src)
  }

  function Largest(body: seq<Entry>): nat
    decreases 0, body
  {
    if body == [] then 0
    else
      var rest := Largest(body[..|body| - 1]);
      var last := SizeOf(body[|body| - 1], map[]);
      if last > rest then last else rest
  }

  function RegAt(l: RegLine, offset: nat, rw: Option<Rw>): Reg {
    Reg(l.name, offset, if l.rw.Some? then l.rw.value else if rw.Some? then rw.value else R, FieldsOf(l.fields))
  }

  function RegsFrom(ls: seq<RegLine>, rw: Rw): (rs: seq<Reg>)
    ensures |rs| == |ls|
  {
    seq(|ls|, i requires 0 <= i < |ls| => RegAt(ls[i], i, Some(rw)))
  }

  /** What the file means: an entry placed at an address, shared names standing for a copy of
      their definition placed at the same address. */
  function Layout(e: Entry, base: nat, src: Sources): Flat
    decreases |src|, e
  {
    match e
    case RegDef(l) => FlatRegister(RegAt(l, base, None))
    case ArrayDef(name, count, rw) => FlatArray(name, base, count, rw)
    case PairDef(ls) => FlatPair(seq(|ls|, i requires 0 <= i < |ls| => RegAt(ls[i], base, None)))
    case OverlayDef(name, rw, ls) => FlatOverlay(name, base, rw, RegsFrom(ls, rw))
    case UnionDef(name, body) => FlatUnion(name, base, Largest(body), Stack(body, base))
    case GroupDef(name, hidden, body) => FlatGroup(name, base, TotalSize(body, src), hidden, Row(body, base, src))
    case SharedName(key, name, fields) =>
      if key !in src then FlatPair([])
      else match src[key]
        case GroupDef(_, _, body) => FlatGroup(name, base, TotalSize(body, map[]), false, Row(body, base, map[]))
        case RegDef(l) =>
          FlatRegister(RegAt(l, base, None).(name := name, fields := FieldsOf(l.fields) + FieldsOf(fields)))
        case _ => FlatPair([])
  }

  /** Entries one after the other. */
  function Row(body: seq<Entry>, base: nat, src: Sources): (fs: seq<Flat>)
    ensures |fs| == |body|
    decreases |src|, body
  {
    if body == [] then []
    else
      var n := |body| - 1;
      Row(body[..n], base, src) + [Layout(body[n], base + TotalSize(body[..n], src), src)]
  }

  /** Entries all at the same place. */
  function Stack(body: seq<Entry>, base: nat): (fs: seq<Flat>)
    ensures |fs| == |body|
    decreases 0, body
  {
    if body == [] then []
    else Stack(body[..|body| - 1], base) + [Layout(body[|body| - 1], base, map[])]
  }

  // ------------------------------------------------------------------------------------
  // Files that parse

  predicate WellFormed(e: Entry, src: Sources)
    decreases |src|, e
  {
    match e
    case RegDef(l) => l.rw.Some?
    case ArrayDef(_, _, _) => true
    case PairDef(ls) => |ls| == 2 && ls[0].rw == Some(R) && (ls[1].rw == Some(W) || ls[1].rw == Some(WP))
    case OverlayDef(_, _, _) => true
    case UnionDef(_, body) => AllWellFormed(body, map[])
    case GroupDef(_, _, body) => AllWellFormed(body, src)
    case SharedName(key, _, fields) => key in src && (src[key].GroupDef? ==> fields == [])
  }

  predicate AllWellFormed(body: seq<Entry>, src: Sources)
    decreases |src|, body
  {
    body == [] || (AllWellFormed(body[..|body| - 1], src) && WellFormed(body[|body| - 1], src))
  }

  /** Definitions are groups or registers that themselves use no definitions. */
  ghost predicate Sound(src: Sources) {
    forall key :: key in src ==> (src[key].GroupDef? || src[key].RegDef?) && WellFormed(src[key], map[])
  }

  /** An entry and everything in it, and whether it stands in a union. */
  datatype Part = Part(entry: Entry, inUnion: bool)

  function Parts(e: Entry, inUnion: bool): seq<Part>
    decreases e
  {
    [Part(e, inUnion)] +
    match e
    case UnionDef(_, body) => PartsOfAll(body, true)
    case GroupDef(_, _, body) => PartsOfAll(body, inUnion)
    case _ => []
  }

  function PartsOfAll(body: seq<Entry>, inUnion: bool): seq<Part>
    decreases body
  {
    if body == [] then [] else PartsOfAll(body[..|body| - 1], inUnion) + Parts(body[|body| - 1], inUnion)
  }

  /** What is asked of a single entry: a register says how it is accessed, a pair is a register to
      read and one to write, and a shared name is known, not used in a union, and gets no fields
      if it is a group. */
  predicate Accepted(p: Part, src: Sources) {
    match p.entry
    case RegDef(l) => l.rw.Some?
    case PairDef(ls) => |ls| == 2 && ls[0].rw == Some(R) && (ls[1].rw == Some(W) || ls[1].rw == Some(WP))
    case SharedName(key, _, fields) => !p.inUnion && key in src && (src[key].GroupDef? ==> fields == [])
    case _ => true
  }

  /** An entry is well formed exactly if each entry in it is accepted. */
  lemma {:induction false} WellFormedExactly(e: Entry, src: Sources, inUnion: bool)
    ensures WellFormed(e, if inUnion then map[] else src) <==> forall p :: p in Parts(e, inUnion) ==> Accepted(p, src)
    decreases e
  {
    hide AllWellFormed, PartsOfAll;
    match e
    case UnionDef(_, body) => AllWellFormedExactly(body, src, true);
    case GroupDef(_, _, body) => AllWellFormedExactly(body, src, inUnion);
    case _ => assert Part(e, inUnion) in Parts(e, inUnion);
  }

  lemma {:induction false} AllWellFormedExactly(body: seq<Entry>, src: Sources, inUnion: bool)
    ensures AllWellFormed(body, if inUnion then map[] else src) <==>
            forall p :: p in PartsOfAll(body, inUnion) ==> Accepted(p, src)
    decreases body
  {
    hide WellFormed, Parts, Accepted;
    if body != [] {
      AllWellFormedExactly(body[..|body| - 1], src, inUnion);
      WellFormedExactly(body[|body| - 1], src, inUnion);
    }
  }

  // ------------------------------------------------------------------------------------
  // What the layout keeps

  /** A register with the name and fields of its line, and the access given there, or else the one
      given by its context. */
  predicate SameReg(r: Reg, l: RegLine, rw: Option<Rw>) {
    && r.name == l.name && r.fields == FieldsOf(l.fields)
    && (l.rw.Some? ==> r.rw == l.rw.value)
    && (l.rw.None? && rw.Some? ==> r.rw == rw.value)
  }

  /** A flat entry is what the source says, whatever its address; shared names stand for what
      they name, under the name of the reference, and with the fields given there after those of
      the definition. */
  predicate Corresponds(f: Flat, e: Entry, src: Sources) {
    match e
    case RegDef(l) => f.FlatRegister? && SameReg(f.reg, l, None)
    case ArrayDef(name, count, rw) => f.FlatArray? && f.name == name && f.length == count && f.rw == rw
    case PairDef(ls) =>
      f.FlatPair? && |f.registers| == |ls| && forall i :: 0 <= i < |ls| ==> SameReg(f.registers[i], ls[i], None)
    case OverlayDef(name, rw, ls) =>
      && f.FlatOverlay? && f.name == name && f.rw == rw && |f.registers| == |ls|
      && forall i :: 0 <= i < |ls| ==> SameReg(f.registers[i], ls[i], Some(rw))
    case UnionDef(name, body) =>
      f.FlatUnion? && f.name == name && |f.content| == |body| &&
      forall i :: 0 <= i < |body| ==> Corresponds(f.content[i], body[i], map[])
    case GroupDef(name, hidden, body) =>
      f.FlatGroup? && f.name == name && f.hidden == hidden && |f.content| == |body| &&
      forall i :: 0 <= i < |body| ==> Corresponds(f.content[i], body[i], src)
    case SharedName(key, name, fields) =>
      key in src &&
      match src[key]
      case GroupDef(_, _, body) =>
        f.FlatGroup? && f.name == name && !f.hidden && |f.content| == |body| &&
        forall i :: 0 <= i < |body| ==> Corresponds(f.content[i], body[i], map[])
      case RegDef(l) =>
        f.FlatRegister? && f.reg.name == name && Some(f.reg.rw) == l.rw &&
        f.reg.fields == FieldsOf(l.fields) + FieldsOf(fields)
      case _ => false
  }

  lemma {:induction false} LayoutCorresponds(e: Entry, base: nat, src: Sources)
    requires Sound(src) && WellFormed(e, src)
    ensures Corresponds(Layout(e, base, src), e, src)
    decreases |src|, e
  {
    hide Row, Stack, TotalSize, Largest, AllWellFormed, FieldsOf;
    match e
    case UnionDef(_, body) => StackCorresponds(body, base);
    case GroupDef(_, _, body) => RowCorresponds(body, base, src);
    case SharedName(key, _, _) =>
      if src[key].GroupDef? {
        RowCorresponds(src[key].body, base, map[]);
      }
    case _ =>
  }

  lemma {:induction false} RowCorresponds(body: seq<Entry>, base: nat, src: Sources)
    requires Sound(src) && AllWellFormed(body, src)
    ensures forall i :: 0 <= i < |body| ==> Corresponds(Row(body, base, src)[i], body[i], src)
    decreases |src|, body
  {
    hide Layout, SizeOf, WellFormed, Sound, Corresponds;
    if body != [] {
      var n := |body| - 1;
      RowCorresponds(body[..n], base, src);
      LayoutCorresponds(body[n], base + TotalSize(body[..n], src), src);
      forall i | 0 <= i < |body| ensures Corresponds(Row(body, base, src)[i], body[i], src) {
        if i < n {
          assert Row(body, base, src)[i] == Row(body[..n], base, src)[i] && body[..n][i] == body[i];
        }
      }
    }
  }

  lemma {:induction false} StackCorresponds(body: seq<Entry>, base: nat)
    requires AllWellFormed(body, map[])
    ensures forall i :: 0 <= i < |body| ==> Corresponds(Stack(body, base)[i], body[i], map[])
    decreases 0, body
  {
    hide Layout, WellFormed, Corresponds;
    if body != [] {
      var n := |body| - 1;
      StackCorresponds(body[..n], base);
      LayoutCorresponds(body[n], base, map[]);
      forall i | 0 <= i < |body| ensures Corresponds(Stack(body, base)[i], body[i], map[]) {
        if i < n {
          assert Stack(body, base)[i] == Stack(body[..n], base)[i] && body[..n][i] == body[i];
        }
      }
    }
  }

  // ------------------------------------------------------------------------------------
  // Addresses

  /** The entries cover the addresses from one to the next without gap or overlap. */
  predicate Consecutive(fs: seq<Flat>, from: nat, to: nat) {
    if fs == [] then from == to
    else
      var last := fs[|fs| - 1];
      last.Start() + last.Size() == to && Consecutive(fs[..|fs| - 1], from, last.Start())
  }

  /** Every group is exactly filled by its consecutive entries, a union's members share its
      base and the largest fills it, and the registers of a pair share their address. */
  predicate Tidy(f: Flat) {
    match f
    case FlatGroup(_, base, length, _, content) => Consecutive(content, base, base + length) && AllTidy(content)
    case FlatUnion(_, base, length, content) =>
      && AllTidy(content)
      && (forall i :: 0 <= i < |content| ==> content[i].Start() == base && content[i].Size() <= length)
      && (length > 0 ==> exists i :: 0 <= i < |content| && content[i].Size() == length)
    case FlatPair(rs) => |rs| == 2 && rs[0].offset == rs[1].offset
    case FlatOverlay(_, _, _, rs) => forall i :: 0 <= i < |rs| ==> rs[i].offset == i
    case _ => true
  }

  predicate AllTidy(fs: seq<Flat>) {
    fs == [] || (AllTidy(fs[..|fs| - 1]) && Tidy(fs[|fs| - 1]))
  }

  /** Laying out a well formed entry takes up exactly its size from the given address on, and
      leaves everything below it in order. */
  lemma {:induction false} LayoutTidy(e: Entry, base: nat, src: Sources)
    requires Sound(src) && WellFormed(e, src)
    ensures Layout(e, base, src).Start() == base && Layout(e, base, src).Size() == SizeOf(e, src)
    ensures Tidy(Layout(e, base, src))
    decreases |src|, e
  {
    hide Row, Stack, TotalSize, Largest, AllTidy, Consecutive, AllWellFormed, FieldsOf;
    match e
    case UnionDef(_, body) => StackTidy(body, base);
    case GroupDef(_, _, body) => RowTidy(body, base, src);
    case SharedName(key, _, _) =>
      if src[key].GroupDef? {
        RowTidy(src[key].body, base, map[]);
      }
    case _ =>
  }

  lemma {:induction false} RowTidy(body: seq<Entry>, base: nat, src: Sources)
    requires Sound(src) && AllWellFormed(body, src)
    ensures Consecutive(Row(body, base, src), base, base + TotalSize(body, src))
    ensures AllTidy(Row(body, base, src))
    decreases |src|, body
  {
    hide Layout, SizeOf, WellFormed, Tidy, Sound;
    if body != [] {
      var n := |body| - 1;
      RowTidy(body[..n], base, src);
      LayoutTidy(body[n], base + TotalSize(body[..n], src), src);
      assert Row(body, base, src)[..n] == Row(body[..n], base, src);
    }
  }

  lemma {:induction false} StackTidy(body: seq<Entry>, base: nat)
    requires AllWellFormed(body, map[])
    ensures AllTidy(Stack(body, base))
    ensures forall i :: 0 <= i < |body| ==>
              Stack(body, base)[i].Start() == base && Stack(body, base)[i].Size() <= Largest(body)
    ensures Largest(body) > 0 ==> exists i :: 0 <= i < |body| && Stack(body, base)[i].Size() == Largest(body)
    decreases 0, body
  {
    if body != [] {
      var n := |body| - 1;
      StackTidy(body[..n], base);
      LayoutTidy(body[n], base, map[]);
      var s := Stack(body, base);
      assert s[..n] == Stack(body[..n], base);
      assert forall i :: 0 <= i < n ==> s[i] == Stack(body[..n], base)[i];
      assert s[n] == Layout(body[n], base, map[]);
    }
  }

  /** Consecutive entries are disjoint, and every address between belongs to one of them. */
  lemma {:induction false} ConsecutiveDisjoint(fs: seq<Flat>, from: nat, to: nat, i: nat, j: nat)
    requires Consecutive(fs, from, to) && i < j < |fs|
    ensures from <= fs[i].Start() && fs[i].Start() + fs[i].Size() <= fs[j].Start() <= to
  {
    var n := |fs| - 1;
    ConsecutiveWithin(fs[..n], from, fs[n].Start(), i);
    if j < n {
      ConsecutiveDisjoint(fs[..n], from, fs[n].Start(), i, j);
    }
  }

  lemma {:induction false} ConsecutiveWithin(fs: seq<Flat>, from: nat, to: nat, i: nat)
    requires Consecutive(fs, from, to)
    ensures from <= to
    ensures i < |fs| ==> from <= fs[i].Start() && fs[i].Start() + fs[i].Size() <= to
  {
    if fs != [] {
      var n := |fs| - 1;
      ConsecutiveWithin(fs[..n], from, fs[n].Start(), i);
    }
  }

  lemma {:induction false} ConsecutiveCovers(fs: seq<Flat>, from: nat, to: nat, a: nat) returns (i: nat)
    requires Consecutive(fs, from, to) && from <= a < to
    ensures i < |fs| && fs[i].Start() <= a < fs[i].Start() + fs[i].Size()
  {
    var n := |fs| - 1;
    if a >= fs[n].Start() {
      i := n;
    } else {
      i := ConsecutiveCovers(fs[..n], from, fs[n].Start(), a);
    }
  }

  // ------------------------------------------------------------------------------------
  // Parsing

  /** What a dictionary of parsed definitions must be for its sources. */
  ghost predicate Defines(defines: map<string, Node>, src: Sources) {
    && Sound(src) && defines.Keys == src.Keys
    && forall key :: key in src ==>
         && (src[key].GroupDef? ==>
               defines[key].Group? && defines[key].definition.None?
               && defines[key].length == TotalSize(src[key].body, map[]))
         && (src[key].RegDef? ==>
               && defines[key].Register? && defines[key].original.None?
               && defines[key].reg.rw == src[key].reg.rw.value)
         && Flattens(defines[key], src[key], 0, map[])
  }

  /** However far it is moved, a parsed entry flattens to its layout; with definitions about,
      it may only be left where it is. */
  ghost predicate Flattens(n: Node, e: Entry, offset: nat, src: Sources) {
    forall shift: nat :: shift == 0 || src == map[] ==> Flatten(shift, n) == Layout(e, offset + shift, src)
  }

  ghost predicate RowFlattens(ns: seq<Node>, body: seq<Entry>, offset: nat, src: Sources) {
    forall shift: nat :: shift == 0 || src == map[] ==> FlattenAll(shift, ns) == Row(body, offset + shift, src)
  }

  ghost predicate StackFlattens(ns: seq<Node>, body: seq<Entry>, offset: nat) {
    forall shift: nat :: FlattenAll(shift, ns) == Stack(body, offset + shift)
  }

  method ParseFieldDefs(defs: seq<FieldDef>) returns (fields: seq<Field>)
    ensures fields == FieldsOf(defs)
  {
    fields := [];
    var offset: nat := 0;
    for i := 0 to |defs|
      invariant fields == FieldsOf(defs[..i]) && offset == FieldEnd(defs[..i])
    {
      assert defs[..i + 1][..i] == defs[..i];
      match defs[i]
      case Skip(n) =>
        offset := offset + n;
      case FieldDef(name, n, bit, at, rw) =>
        if at.Some? {
          offset := at.value;
        }
        fields := fields + [Field(name, offset, n, bit, rw)];
        offset := offset + n;
    }
    assert defs[..|defs|] == defs;
  }

  /** A register line; its access must be given there or by the context, and be as expected. */
  method ParseRegDef(offset: nat, l: RegLine, allowed: set<Rw>, rw: Option<Rw>) returns (r: Option<Reg>)
    ensures r.Some? <==>
              (l.rw.Some? || rw.Some?) &&
              (allowed == {} || (if l.rw.Some? then l.rw.value in allowed else rw.value in allowed))
    ensures r.Some? ==> r.value == RegAt(l, offset, rw)
    ensures r.Some? ==> r.value.name == l.name && r.value.offset == offset && SameReg(r.value, l, rw)
  {
    var access := if l.rw.Some? then l.rw else rw;
    if access.None? || (allowed != {} && access.value !in allowed) {
      return None;
    }
    var fields := ParseFieldDefs(l.fields);
    r := Some(Reg(l.name, offset, access.value, fields));
  }

  method ParseRegPair(offset: nat, ls: seq<RegLine>) returns (r: Option<Node>)
    ensures r.Some? <==> WellFormed(PairDef(ls), map[])
    ensures r.Some? ==> Flattens(r.value, PairDef(ls), offset, map[]) && Flatten(0, r.value) == Layout(PairDef(ls), offset, map[])
  {
    if |ls| != 2 {
      return None;
    }
    var first := ParseRegDef(offset, ls[0], {R}, None);
    if first.None? {
      return None;
    }
    var second := ParseRegDef(offset, ls[1], {W, WP}, None);
    if second.None? {
      return None;
    }
    r := Some(RwPair([first.value, second.value]));
    assert ls == [ls[0], ls[1]];
    forall shift: nat ensures Flatten(shift, r.value) == Layout(PairDef(ls), offset + shift, map[]) {
      assert Layout(PairDef(ls), offset + shift, map[]).registers ==
             [RegAt(ls[0], offset + shift, None), RegAt(ls[1], offset + shift, None)];
    }
  }

  method ParseRegOverlay(offset: nat, name: string, rw: Rw, ls: seq<RegLine>) returns (r: Node)
    ensures r == Overlay(name, offset, rw, RegsFrom(ls, rw))
  {
    var registers := [];
    for i := 0 to |ls|
      invariant registers == RegsFrom(ls, rw)[..i]
    {
      var reg := ParseRegDef(i, ls[i], {}, Some(rw));
      registers := registers + [reg.value];
    }
    r := Overlay(name, offset, rw, registers);
  }

  /** Registers of a union are all parsed at its own offset and may not use shared names. */
  method ParseRegUnion(offset: nat, name: string, body: seq<Entry>)
    returns (r: Option<Node>, size: nat)
    ensures r.Some? <==> AllWellFormed(body, map[])
    ensures r.Some? ==> size == Largest(body) && Flattens(r.value, UnionDef(name, body), offset, map[])
    decreases 0, body, 0
  {
    hide Layout, WellFormed, SizeOf;
    size := 0;
    var content := [];
    var i := 0;
    while i < |body|
      invariant 0 <= i <= |body|
      invariant AllWellFormed(body[..i], map[])
      invariant size == Largest(body[..i])
      invariant StackFlattens(content, body[..i], offset)
    {
      assert body[..i + 1][..i] == body[..i];
      var result, count := ParseGroupEntry(offset, body[i], map[], map[]);
      if result.None? {
        NotAllWellFormed(body, i, map[]);
        return None, 0;
      }
      StackNext(content, body, i, offset, result.value);
      content := content + [result.value];
      if count > size {
        size := count;
      }
      i := i + 1;
    }
    assert body[..|body|] == body;
    r := Some(Union(name, offset, size, content));
    UnionFlattens(name, body, content, offset);
  }

  /** A reference to a shared definition, at the offset of the reference. */
  method ParseSharedName(offset: nat, key: string, name: string, fieldDefs: seq<FieldDef>,
                         defines: map<string, Node>, ghost src: Sources)
    returns (r: Option<Node>, length: nat)
    requires Defines(defines, src)
    ensures r.Some? <==> WellFormed(SharedName(key, name, fieldDefs), src)
    ensures r.Some? ==> length == SizeOf(SharedName(key, name, fieldDefs), src)
    ensures r.Some? ==> Flattens(r.value, SharedName(key, name, fieldDefs), offset, src)
  {
    if key !in defines {
      return None, 0;
    }
    var define := defines[key];
    if define.Group? {
      if fieldDefs != [] {
        return None, 0;
      }
      length := define.length;
      r := Some(Group(name, offset, length, false, [], Some(define)));
      SharedGroupFlattens(define, src[key], key, name, offset, src);
    } else {
      var fields := ParseFieldDefs(fieldDefs);
      length := 1;
      r := Some(Register(Reg(name, offset, define.reg.rw, fields), Some(define.reg)));
      SharedRegFlattens(define, src[key], key, name, fieldDefs, offset, src);
    }
  }

  /** One entry of a group and the number of registers it takes up. */
  method ParseGroupEntry(offset: nat, e: Entry, defines: map<string, Node>, ghost src: Sources)
    returns (r: Option<Node>, count: nat)
    requires Defines(defines, src)
    ensures r.Some? <==> WellFormed(e, src)
    ensures r.Some? ==> count == SizeOf(e, src) && Flattens(r.value, e, offset, src)
    decreases |src|, e, 2
  {
    match e {
      case RegDef(l) =>
        var reg := ParseRegDef(offset, l, {}, None);
        r, count := if reg.Some? then Some(Register(reg.value, None)) else None, 1;
      case ArrayDef(name, n, rw) =>
        r, count := Some(Array(name, offset, n, rw)), n;
      case PairDef(ls) =>
        r := ParseRegPair(offset, ls);
        count := 1;
      case OverlayDef(name, rw, ls) =>
        var node := ParseRegOverlay(offset, name, rw, ls);
        r, count := Some(node), 1;
      case UnionDef(name, body) =>
        r, count := ParseRegUnion(offset, name, body);
      case GroupDef(name, hidden, body) =>
        r, count := ParseGroupDef(offset, name, hidden, body, defines, src);
      case SharedName(key, name, fields) =>
        r, count := ParseSharedName(offset, key, name, fields, defines, src);
    }
  }

  /** The entries of a group, each after the one before. */
  method ParseGroupDef(offset: nat, name: string, hidden: bool, body: seq<Entry>,
                       defines: map<string, Node>, ghost src: Sources)
    returns (r: Option<Node>, count: nat)
    requires Defines(defines, src)
    ensures r.Some? <==> AllWellFormed(body, src)
    ensures r.Some? ==> count == TotalSize(body, src) && r.value.Group? && r.value.definition.None? && r.value.length == count
    ensures r.Some? ==> Flattens(r.value, GroupDef(name, hidden, body), offset, src)
    decreases |src|, body, 0
  {
    hide Layout, WellFormed, SizeOf;
    count := 0;
    var content := [];
    var i := 0;
    while i < |body|
      invariant 0 <= i <= |body|
      invariant AllWellFormed(body[..i], src)
      invariant count == TotalSize(body[..i], src)
      invariant RowFlattens(content, body[..i], offset, src)
    {
      assert body[..i + 1][..i] == body[..i];
      var result, entryCount := ParseGroupEntry(offset + count, body[i], defines, src);
      if result.None? {
        NotAllWellFormed(body, i, src);
        return None, 0;
      }
      RowNext(content, body, i, offset, result.value, src);
      content := content + [result.value];
      count := count + entryCount;
      i := i + 1;
    }
    assert body[..|body|] == body;
    r := Some(Group(name, offset, count, hidden, content, None));
    GroupFlattens(name, hidden, body, content, offset, src);
  }

  lemma {:induction false} NotAllWellFormed(body: seq<Entry>, i: nat, src: Sources)
    requires i < |body| && !WellFormed(body[i], src)
    ensures !AllWellFormed(body, src)
  {
    var n := |body| - 1;
    if i < n {
      NotAllWellFormed(body[..n], i, src);
    }
  }

  lemma RowNext(ns: seq<Node>, body: seq<Entry>, i: nat, offset: nat, n: Node, src: Sources)
    requires i < |body| && RowFlattens(ns, body[..i], offset, src)
    requires Flattens(n, body[i], offset + TotalSize(body[..i], src), src)
    ensures RowFlattens(ns + [n], body[..i + 1], offset, src)
  {
    assert body[..i + 1][..i] == body[..i] && (ns + [n])[..|ns|] == ns;
    forall shift: nat | shift == 0 || src == map[]
      ensures FlattenAll(shift, ns + [n]) == Row(body[..i + 1], offset + shift, src) {
      assert offset + TotalSize(body[..i], src) + shift == offset + shift + TotalSize(body[..i], src);
    }
  }

  lemma StackNext(ns: seq<Node>, body: seq<Entry>, i: nat, offset: nat, n: Node)
    requires i < |body| && StackFlattens(ns, body[..i], offset)
    requires Flattens(n, body[i], offset, map[])
    ensures StackFlattens(ns + [n], body[..i + 1], offset)
  {
    assert body[..i + 1][..i] == body[..i] && (ns + [n])[..|ns|] == ns;
  }

  lemma GroupFlattens(name: string, hidden: bool, body: seq<Entry>, ns: seq<Node>, offset: nat, src: Sources)
    requires RowFlattens(ns, body, offset, src)
    ensures Flattens(Group(name, offset, TotalSize(body, src), hidden, ns, None), GroupDef(name, hidden, body), offset, src)
  {
  }

  lemma UnionFlattens(name: string, body: seq<Entry>, ns: seq<Node>, offset: nat)
    requires StackFlattens(ns, body, offset)
    ensures Flattens(Union(name, offset, Largest(body), ns), UnionDef(name, body), offset, map[])
  {
  }

  lemma SharedGroupFlattens(define: Node, e: Entry, key: string, name: string, offset: nat, src: Sources)
    requires key in src && src[key] == e && e.GroupDef?
    requires define.Group? && define.definition.None? && define.length == TotalSize(e.body, map[])
    requires Flattens(define, e, 0, map[])
    ensures Flattens(Group(name, offset, define.length, false, [], Some(define)), SharedName(key, name, []), offset, src)
  {
    forall shift: nat | shift == 0 || src == map[]
      ensures Flatten(shift, Group(name, offset, define.length, false, [], Some(define))) ==
              Layout(SharedName(key, name, []), offset + shift, src) {
      assert Flatten(shift + offset, define) == Layout(e, shift + offset, map[]);
    }
  }

  lemma SharedRegFlattens(define: Node, e: Entry, key: string, name: string, fieldDefs: seq<FieldDef>, offset: nat,
                          src: Sources)
    requires key in src && src[key] == e && e.RegDef? && e.reg.rw.Some?
    requires define.Register? && define.original.None? && define.reg.rw == e.reg.rw.value
    requires Flattens(define, e, 0, map[])
    ensures Flattens(Register(Reg(name, offset, define.reg.rw, FieldsOf(fieldDefs)), Some(define.reg)),
                     SharedName(key, name, fieldDefs), offset, src)
  {
    assert Flatten(0, define) == Layout(e, 0, map[]);
  }

  /** Moving a reference to a shared register would lose its place: flattening relocates it
      correctly only when there is nothing to relocate. */
  lemma SharedRegOnlyAtZero(r: Reg, original: Reg, shift: nat)
    ensures Flatten(shift, Register(r, Some(original))).Start() == r.offset + shift <==> shift == 0
  {
  }

  // ------------------------------------------------------------------------------------
  // Whole files

  function SourceOf(t: TopEntry): Entry {
    match t
    case SharedReg(l) => RegDef(l)
    case SharedGroup(name, hidden, body) => GroupDef(name, hidden, body)
    case TopGroup(name, hidden, body) => GroupDef(name, hidden, body)
    case Ungrouped => UnionDef("", [])
  }

  function NameOf(t: TopEntry): string {
    match t
    case SharedReg(l) => l.name
    case SharedGroup(name, _, _) => name
    case TopGroup(name, _, _) => name
    case Ungrouped => ""
  }

  /** The definitions made by a file. */
  function SourcesOf(file: seq<TopEntry>): Sources {
    if file == [] then map[]
    else
      var t := file[|file| - 1];
      var before := SourcesOf(file[..|file| - 1]);
      if t.SharedReg? || t.SharedGroup? then before[NameOf(t) := SourceOf(t)] else before
  }

  predicate FileWellFormed(file: seq<TopEntry>) {
    file == [] ||
    (var t := file[|file| - 1];
     FileWellFormed(file[..|file| - 1]) && !t.Ungrouped? &&
     WellFormed(SourceOf(t), if t.TopGroup? then SourcesOf(file[..|file| - 1]) else map[]))
  }

  /** The groups of a file, each laid out from address 0 with the definitions made before it. */
  function FileLayout(file: seq<TopEntry>): seq<Flat> {
    if file == [] then []
    else
      var t := file[|file| - 1];
      var before := FileLayout(file[..|file| - 1]);
      if t.TopGroup? then before + [Layout(SourceOf(t), 0, SourcesOf(file[..|file| - 1]))] else before
  }

  lemma {:induction false} FileTidy(file: seq<TopEntry>)
    requires FileWellFormed(file)
    ensures Sound(SourcesOf(file)) && AllTidy(FileLayout(file))
  {
    if file != [] {
      var n := |file| - 1;
      FileTidy(file[..n]);
      if file[n].TopGroup? {
        LayoutTidy(SourceOf(file[n]), 0, SourcesOf(file[..n]));
        assert FileLayout(file)[..|FileLayout(file)| - 1] == FileLayout(file[..n]);
      }
    }
  }

  /** How many groups a file has. */
  function Groups(file: seq<TopEntry>): nat {
    if file == [] then 0 else Groups(file[..|file| - 1]) + if file[|file| - 1].TopGroup? then 1 else 0
  }

  /** Each group of a file is in its place among the groups, starts at address 0 and is what its
      line says, with the definitions made before it. */
  lemma {:induction false} FileGroup(file: seq<TopEntry>, i: nat, name: string, hidden: bool, body: seq<Entry>)
    requires FileWellFormed(file) && i < |file| && file[i] == TopGroup(name, hidden, body)
    ensures |FileLayout(file)| == Groups(file) && Groups(file[..i]) < Groups(file)
    ensures var flat := FileLayout(file)[Groups(file[..i])];
            flat.Start() == 0 && Corresponds(flat, GroupDef(name, hidden, body), SourcesOf(file[..i]))
  {
    hide Corresponds, Layout, WellFormed, Sound, SourcesOf;
    var n := |file| - 1;
    GroupCount(file);
    GroupCount(file[..n]);
    if i < n {
      assert file[..n][..i] == file[..i];
      FileGroup(file[..n], i, name, hidden, body);
    } else {
      FileTidy(file[..n]);
      LayoutCorresponds(SourceOf(file[n]), 0, SourcesOf(file[..n]));
      LayoutTidy(SourceOf(file[n]), 0, SourcesOf(file[..n]));
    }
  }

  lemma {:induction false} GroupCount(file: seq<TopEntry>)
    ensures |FileLayout(file)| == Groups(file)
  {
    if file != [] {
      GroupCount(file[..|file| - 1]);
    }
  }

  /** A line of a file that defines a name, and what it defines. */
  predicate DefinedBy(t: TopEntry, key: string, e: Entry) {
    match t
    case SharedReg(l) => l.name == key && e == RegDef(l)
    case SharedGroup(name, hidden, body) => name == key && e == GroupDef(name, hidden, body)
    case _ => false
  }

  predicate DefinesName(t: TopEntry, key: string) {
    (t.SharedReg? && t.reg.name == key) || (t.SharedGroup? && t.name == key)
  }

  /** A name is known exactly if some line has defined it, and stands for what the last such line
      says. */
  lemma {:induction false} SourcesExact(file: seq<TopEntry>, key: string)
    ensures key in SourcesOf(file) <==> exists j :: 0 <= j < |file| && DefinesName(file[j], key)
    ensures forall j, e :: 0 <= j < |file| && DefinedBy(file[j], key, e) &&
                           (forall m :: j < m < |file| ==> !DefinesName(file[m], key)) ==>
              key in SourcesOf(file) && SourcesOf(file)[key] == e
  {
    if file != [] {
      var n := |file| - 1;
      SourcesExact(file[..n], key);
      if DefinesName(file[n], key) {
        assert NameOf(file[n]) == key;
      } else {
        assert key in SourcesOf(file) <==> key in SourcesOf(file[..n]);
        forall j | 0 <= j < |file| && DefinesName(file[j], key) ensures key in SourcesOf(file) {
          assert file[..n][j] == file[j];
        }
      }
      forall j, e | 0 <= j < |file| && DefinedBy(file[j], key, e) &&
                    (forall m :: j < m < |file| ==> !DefinesName(file[m], key))
        ensures key in SourcesOf(file) && SourcesOf(file)[key] == e
      {
        if j < n {
          assert file[..n][j] == file[j] && !DefinesName(file[n], key);
          assert forall m :: j < m < n ==> file[..n][m] == file[m];
        }
      }
    }
  }

  /** What is asked of a line of a file, with the definitions made before it: shared definitions
      use none. */
  ghost predicate LineAccepted(t: TopEntry, src: Sources) {
    match t
    case SharedReg(l) => l.rw.Some?
    case SharedGroup(name, hidden, body) => forall p :: p in PartsOfAll(body, false) ==> Accepted(p, map[])
    case TopGroup(name, hidden, body) => forall p :: p in PartsOfAll(body, false) ==> Accepted(p, src)
    case Ungrouped => false
  }

  lemma LineAcceptedExactly(t: TopEntry, src: Sources)
    ensures LineAccepted(t, src) <==> !t.Ungrouped? && WellFormed(SourceOf(t), if t.TopGroup? then src else map[])
  {
    hide Accepted;
    match t
    case SharedGroup(_, _, body) => AllWellFormedExactly(body, map[], false);
    case TopGroup(_, _, body) => AllWellFormedExactly(body, src, false);
    case _ =>
  }

  /** A file is well formed exactly if every line of it is accepted. */
  lemma {:induction false} FileExactly(file: seq<TopEntry>)
    ensures FileWellFormed(file) <==> forall i :: 0 <= i < |file| ==> LineAccepted(file[i], SourcesOf(file[..i]))
  {
    hide LineAccepted, WellFormed, SourcesOf;
    if file != [] {
      var n := |file| - 1;
      FileExactly(file[..n]);
      LineAcceptedExactly(file[n], SourcesOf(file[..n]));
      assert forall i :: 0 <= i < n ==> file[..n][i] == file[i] && file[..n][..i] == file[..i];
    }
  }

  /** A shared definition, parsed as if it stood at offset 0 and without other definitions. */
  method ParseSharedDef(t: TopEntry, defines: map<string, Node>, ghost src: Sources)
    returns (r: Option<map<string, Node>>)
    requires Defines(defines, src) && (t.SharedReg? || t.SharedGroup?)
    ensures r.Some? <==> WellFormed(SourceOf(t), map[])
    ensures r.Some? ==> Defines(r.value, src[NameOf(t) := SourceOf(t)])
  {
    var result: Option<Node>;
    match t {
      case SharedReg(l) =>
        var reg := ParseRegDef(0, l, {}, None);
        result := if reg.Some? then Some(Register(reg.value, None)) else None;
      case SharedGroup(name, hidden, body) =>
        var group, _ := ParseGroupDef(0, name, hidden, body, map[], map[]);
        result := group;
    }
    r := if result.Some? then Some(defines[NameOf(t) := result.value]) else None;
  }

  /** The groups of a file, or nothing if a line of it is refused; flattened, they are the
      file's layout, so that every address is where the inlined definitions put it. */
  method ParseDefs(file: seq<TopEntry>) returns (r: Option<seq<Node>>)
    ensures r.Some? <==> FileWellFormed(file)
    ensures r.Some? ==> FlattenAll(0, r.value) == FileLayout(file) && AllTidy(FlattenAll(0, r.value))
  {
    var groups: seq<Node> := [];
    var defines: map<string, Node> := map[];
    var i := 0;
    while i < |file|
      invariant 0 <= i <= |file|
      invariant FileWellFormed(file[..i])
      invariant Defines(defines, SourcesOf(file[..i]))
      invariant FlattenAll(0, groups) == FileLayout(file[..i])
    {
      assert file[..i + 1][..i] == file[..i];
      var t := file[i];
      match t {
        case TopGroup(name, hidden, body) =>
          var group, _ := ParseGroupDef(0, name, hidden, body, defines, SourcesOf(file[..i]));
          if group.None? {
            FileFails(file, i);
            return None;
          }
          assert (groups + [group.value])[..|groups|] == groups;
          groups := groups + [group.value];
        case Ungrouped =>
          FileFails(file, i);
          return None;
        case _ =>
          var more := ParseSharedDef(t, defines, SourcesOf(file[..i]));
          if more.None? {
            FileFails(file, i);
            return None;
          }
          defines := more.value;
      }
      i := i + 1;
    }
    assert file[..|file|] == file;
    FileTidy(file);
    r := Some(groups);
  }

  lemma {:induction false} FileFails(file: seq<TopEntry>, i: nat)
    requires i < |file| && !FileWellFormed(file[..i + 1])
    ensures !FileWellFormed(file)
  {
    var n := |file| - 1;
    if i < n {
      assert file[..n][..i + 1] == file[..i + 1];
      FileFails(file[..n], i);
    } else {
      assert file[..i + 1] == file;
    }
  }
}
