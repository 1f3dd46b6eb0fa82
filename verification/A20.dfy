/** A small real-mode machine, and the program that finds out whether address bit 20 is masked. */
module A20 {
  import opened Flags

  const MEMORY_SIZE := 0x110000
  const BIT_20 := 0x100000

  datatype Reg = AX | DX | DI | SI | DS | ES

  /** Memory operands are a segment register and an offset register; a jump is relative to the next instruction. */
  datatype Instr =
    | PushF | PopF
    | Push(r: Reg) | Pop(r: Reg)
    | Cli
    | XorSelf(r: Reg) | Not(r: Reg)
    | Mov(to: Reg, from: Reg) | MovImm(to: Reg, w: Word)
    | LoadAl(seg: Reg, off: Reg) | StoreAl(seg: Reg, off: Reg)
    | StoreImm(seg: Reg, off: Reg, b: Byte) | CmpImm(seg: Reg, off: Reg, b: Byte)
    | Je(skip: nat)
    | AddAl(b: Byte)
    | OutDxAl
    | Hlt

  datatype Regs = Regs(ax: Word, dx: Word, di: Word, si: Word, ds: Word, es: Word)

  datatype Machine = Machine(
    regs: Regs, ss: Word, sp: Word, flags: Word, mem: seq<Byte>, pc: nat, halted: bool, out: seq<(Word, Byte)>)

  function Get(g: Regs, r: Reg): Word {
    match r
    case AX => g.ax case DX => g.dx case DI => g.di case SI => g.si case DS => g.ds case ES => g.es
  }

  function Set(g: Regs, r: Reg, w: Word): Regs {
    match r
    case AX => g.(ax := w) case DX => g.(dx := w) case DI => g.(di := w)
    case SI => g.(si := w) case DS => g.(ds := w) case ES => g.(es := w)
  }

  /** Physical address of seg:off; with the line masked, bit 20 reads as zero. */
  function Phys(masked: bool, seg: Word, off: Word): nat {
    var linear := seg * 16 + off;
    if masked && linear >= BIT_20 then linear - BIT_20 else linear
  }

  function Al(ax: Word): Byte { ax % 0x100 }

  function WithAl(ax: Word, b: Byte): Word { ax - ax % 0x100 + b }

  /** Registers are independent of each other, and AL is the low half of AX. */
  lemma RegistersExactly(g: Regs, r: Reg, w: Word, other: Reg, b: Byte)
    ensures Get(Set(g, r, w), other) == if other == r then w else Get(g, other)
    ensures Set(g, AX, w).ax == w && Set(g, DX, w).dx == w
    ensures Al(WithAl(w, b)) == b && WithAl(w, b) / 0x100 == w / 0x100
    ensures Al(w) + 0x100 * (w / 0x100) == w
  {
  }

  // ---------------------------------------------------------------- steps

  function Read(masked: bool, m: Machine, seg: Word, off: Word): Byte
    requires |m.mem| == MEMORY_SIZE
  {
    m.mem[Phys(masked, seg, off)]
  }

  function Write(masked: bool, m: Machine, seg: Word, off: Word, b: Byte): (m': Machine)
    requires |m.mem| == MEMORY_SIZE
    ensures |m'.mem| == MEMORY_SIZE
  {
    m.(mem := m.mem[Phys(masked, seg, off) := b])
  }

  /** Low byte at the new top of the stack, high byte above it; offsets wrap in the segment. */
  function PushWord(masked: bool, m: Machine, w: Word): (m': Machine)
    requires |m.mem| == MEMORY_SIZE
    ensures |m'.mem| == MEMORY_SIZE
  {
    var sp := (m.sp - 2) % 0x10000;
    Write(masked, Write(masked, m.(sp := sp), m.ss, sp, w % 0x100), m.ss, (sp + 1) % 0x10000, w / 0x100)
  }

  function TopWord(masked: bool, m: Machine): Word
    requires |m.mem| == MEMORY_SIZE
  {
    Read(masked, m, m.ss, m.sp) + 0x100 * Read(masked, m, m.ss, (m.sp + 1) % 0x10000)
  }

  function Popped(m: Machine): Machine {
    m.(sp := (m.sp + 2) % 0x10000)
  }

  function Exec(masked: bool, i: Instr, m: Machine): (m': Machine)
    requires |m.mem| == MEMORY_SIZE
    ensures |m'.mem| == MEMORY_SIZE && m'.pc >= m.pc && m'.ss == m.ss
  {
    match i
    case PushF => PushWord(masked, m, m.flags)
    case PopF => Popped(m).(flags := TopWord(masked, m))
    case Push(r) => PushWord(masked, m, Get(m.regs, r))
    case Pop(r) => Popped(m).(regs := Set(m.regs, r, TopWord(masked, m)))
    case Cli => m.(flags := SetFlag(m.flags, IF, false))
    case XorSelf(r) =>
      m.(regs := Set(m.regs, r, 0), flags := ArithFlags(m.flags, false, false, FlagSet(m.flags, 0x10), 0))
    case Not(r) => m.(regs := Set(m.regs, r, 0xFFFF - Get(m.regs, r)))
    case Mov(to, from) => m.(regs := Set(m.regs, to, Get(m.regs, from)))
    case MovImm(to, w) => m.(regs := Set(m.regs, to, w))
    case LoadAl(s, o) => m.(regs := m.regs.(ax := WithAl(m.regs.ax, Read(masked, m, Get(m.regs, s), Get(m.regs, o)))))
    case StoreAl(s, o) => Write(masked, m, Get(m.regs, s), Get(m.regs, o), Al(m.regs.ax))
    case StoreImm(s, o, b) => Write(masked, m, Get(m.regs, s), Get(m.regs, o), b)
    case CmpImm(s, o, b) => m.(flags := CmpFlags(m.flags, Read(masked, m, Get(m.regs, s), Get(m.regs, o)), b))
    case Je(skip) => if FlagSet(m.flags, ZF) then m.(pc := m.pc + skip) else m
    case AddAl(b) =>
      m.(regs := m.regs.(ax := WithAl(m.regs.ax, (Al(m.regs.ax) + b) % 0x100)),
         flags := AddFlags(m.flags, Al(m.regs.ax), b))
    case OutDxAl => m.(out := m.out + [(m.regs.dx, Al(m.regs.ax))])
    case Hlt => m.(halted := true)
  }

  const PROGRAM: seq<Instr> := [
    /*  0 */ PushF, Push(DS), Push(ES), Push(DI), Push(SI),
    /*  5 */ Cli, XorSelf(AX), Mov(ES, AX), Not(AX), Mov(DS, AX), MovImm(DI, 0x0500), MovImm(SI, 0x0510),
    /* 12 */ LoadAl(ES, DI), Push(AX), LoadAl(DS, SI), Push(AX),
    /* 16 */ StoreImm(ES, DI, 0x00), StoreImm(DS, SI, 0xFF), CmpImm(ES, DI, 0xFF),
    /* 19 */ Pop(AX), StoreAl(DS, SI), Pop(AX), StoreAl(ES, DI),
    /* 23 */ MovImm(AX, 0), Je(1), MovImm(AX, 1),
    /* 26 */ Pop(SI), Pop(DI), Pop(ES), Pop(DS), PopF,
    /* 31 */ MovImm(DX, 0x3f8), AddAl(0x30), OutDxAl, Hlt]

  const EXIT := 31   // where check_a20 proper ends and its result is printed
  const END := 35

  function Step(masked: bool, m: Machine): (m': Machine)
    requires |m.mem| == MEMORY_SIZE && m.pc < END
    ensures |m'.mem| == MEMORY_SIZE && m'.pc > m.pc
  {
    Exec(masked, PROGRAM[m.pc], m.(pc := m.pc + 1))
  }

  /** Execution until the program counter reaches `stop` or the machine halts. */
  function RunTo(masked: bool, m: Machine, stop: nat): Machine
    requires |m.mem| == MEMORY_SIZE && stop <= END
    decreases stop - m.pc
  {
    if m.halted || m.pc >= stop then m else RunTo(masked, Step(masked, m), stop)
  }

  // ---------------------------------------------------------------- the stack as a sequence of words

  /** The k-th byte below the stack pointer of `m0`. */
  function StackByte(masked: bool, m0: Machine, k: nat): nat {
    Phys(masked, m0.ss, (m0.sp - k) % 0x10000)
  }

  /** The 14 bytes below the stack pointer, which the program uses. */
  ghost predicate InStack(masked: bool, m0: Machine, a: nat) {
    exists k :: 1 <= k <= 14 && a == StackByte(masked, m0, k)
  }

  lemma StackBytesDiffer(masked: bool, m0: Machine, j: nat, k: nat)
    requires 1 <= j <= 14 && 1 <= k <= 14 && j != k
    ensures StackByte(masked, m0, j) != StackByte(masked, m0, k)
  {
  }

  /**
   `m` has the words `ws` on the stack below where `m0` had its top, the last one on top; outside the stack area its
   memory is `ref`.
   */
  ghost predicate Holds(masked: bool, m0: Machine, m: Machine, ws: seq<Word>, ref: seq<Byte>) {
    && |m.mem| == |ref| == MEMORY_SIZE && |ws| <= 7
    && m.ss == m0.ss && m.sp == (m0.sp - 2 * |ws|) % 0x10000
    && (forall i :: 0 <= i < |ws| ==> WordBelow(masked, m0, m, i, ws[i]))
    && (forall a :: 0 <= a < MEMORY_SIZE && !InStack(masked, m0, a) ==> m.mem[a] == ref[a])
  }

  ghost predicate WordBelow(masked: bool, m0: Machine, m: Machine, i: nat, w: Word)
    requires |m.mem| == MEMORY_SIZE
  {
    && m.mem[StackByte(masked, m0, 2 * i + 1)] == w / 0x100
    && m.mem[StackByte(masked, m0, 2 * i + 2)] == w % 0x100
  }

  /** A push writes the next two bytes of the stack area. */
  lemma PushWrites(masked: bool, m0: Machine, m: Machine, n: nat, w: Word)
    requires |m.mem| == MEMORY_SIZE && n < 7
    requires m.ss == m0.ss && m.sp == (m0.sp - 2 * n) % 0x10000
    ensures var m' := PushWord(masked, m, w);
            && m'.sp == (m0.sp - 2 * (n + 1)) % 0x10000 && m'.ss == m0.ss
            && m'.mem
            == m.mem[StackByte(masked, m0, 2 * n + 2) := w % 0x100][StackByte(masked, m0, 2 * n + 1) := w / 0x100]
  {
    assert (m.sp - 2) % 0x10000 == (m0.sp - (2 * n + 2)) % 0x10000;
    assert ((m.sp - 2) % 0x10000 + 1) % 0x10000 == (m0.sp - (2 * n + 1)) % 0x10000;
  }

  lemma PushKeepsWord(masked: bool, m0: Machine, m: Machine, n: nat, w: Word, i: nat, x: Word)
    requires |m.mem| == MEMORY_SIZE && i < n < 7
    requires m.ss == m0.ss && m.sp == (m0.sp - 2 * n) % 0x10000
    requires WordBelow(masked, m0, m, i, x)
    ensures WordBelow(masked, m0, PushWord(masked, m, w), i, x)
  {
    PushWrites(masked, m0, m, n, w);
    StackBytesDiffer(masked, m0, 2 * i + 1, 2 * n + 1);
    StackBytesDiffer(masked, m0, 2 * i + 1, 2 * n + 2);
    StackBytesDiffer(masked, m0, 2 * i + 2, 2 * n + 1);
    StackBytesDiffer(masked, m0, 2 * i + 2, 2 * n + 2);
  }

  lemma PushStoresWord(masked: bool, m0: Machine, m: Machine, n: nat, w: Word)
    requires |m.mem| == MEMORY_SIZE && n < 7
    requires m.ss == m0.ss && m.sp == (m0.sp - 2 * n) % 0x10000
    ensures var m' := PushWord(masked, m, w);
            && WordBelow(masked, m0, m', n, w)
            && forall a :: 0 <= a < MEMORY_SIZE && !InStack(masked, m0, a) ==> m'.mem[a] == m.mem[a]
  {
    PushWrites(masked, m0, m, n, w);
    StackBytesDiffer(masked, m0, 2 * n + 1, 2 * n + 2);
    assert InStack(masked, m0, StackByte(masked, m0, 2 * n + 1));
    assert InStack(masked, m0, StackByte(masked, m0, 2 * n + 2));
  }

  lemma PushHolds(masked: bool, m0: Machine, m: Machine, ws: seq<Word>, ref: seq<Byte>, w: Word)
    requires Holds(masked, m0, m, ws, ref) && |ws| < 7
    ensures Holds(masked, m0, PushWord(masked, m, w), ws + [w], ref)
  {
    hide WordBelow, InStack, StackByte, Phys;
    var m' := PushWord(masked, m, w);
    PushWrites(masked, m0, m, |ws|, w);
    PushStoresWord(masked, m0, m, |ws|, w);
    forall i | 0 <= i < |ws|
      ensures WordBelow(masked, m0, m', i, ws[i])
    {
      PushKeepsWord(masked, m0, m, |ws|, w, i, ws[i]);
    }
  }

  lemma TopOfStack(masked: bool, m0: Machine, m: Machine, n: nat)
    requires n < 7 && m.ss == m0.ss && m.sp == (m0.sp - 2 * (n + 1)) % 0x10000
    ensures Phys(masked, m.ss, m.sp) == StackByte(masked, m0, 2 * n + 2)
    ensures Phys(masked, m.ss, (m.sp + 1) % 0x10000) == StackByte(masked, m0, 2 * n + 1)
    ensures Popped(m).sp == (m0.sp - 2 * n) % 0x10000
  {
    assert (m.sp + 1) % 0x10000 == (m0.sp - (2 * n + 1)) % 0x10000;
  }

  lemma PopHolds(masked: bool, m0: Machine, m: Machine, ws: seq<Word>, ref: seq<Byte>, w: Word)
    requires Holds(masked, m0, m, ws + [w], ref)
    ensures TopWord(masked, m) == w
    ensures Holds(masked, m0, Popped(m), ws, ref)
  {
    hide Phys;
    var n := |ws|;
    assert (ws + [w])[n] == w && WordBelow(masked, m0, m, n, w);
    TopOfStack(masked, m0, m, n);
    forall i | 0 <= i < n
      ensures WordBelow(masked, m0, Popped(m), i, ws[i])
    {
      assert (ws + [w])[i] == ws[i] && WordBelow(masked, m0, m, i, ws[i]);
    }
  }

  lemma WriteHolds(masked: bool, m0: Machine, m: Machine, ws: seq<Word>, ref: seq<Byte>, seg: Word, off: Word, b: Byte)
    requires Holds(masked, m0, m, ws, ref) && !InStack(masked, m0, Phys(masked, seg, off))
    ensures Holds(masked, m0, Write(masked, m, seg, off, b), ws, ref[Phys(masked, seg, off) := b])
  {
    forall i | 0 <= i < |ws|
      ensures WordBelow(masked, m0, Write(masked, m, seg, off, b), i, ws[i])
    {
      assert WordBelow(masked, m0, m, i, ws[i]);
      assert InStack(masked, m0, StackByte(masked, m0, 2 * i + 1));
      assert InStack(masked, m0, StackByte(masked, m0, 2 * i + 2));
    }
  }

  // ---------------------------------------------------------------- one instruction at a time

  /** The two probed bytes: 0000:0500 and FFFF:0510. */
  function Low(masked: bool): nat { Phys(masked, 0, 0x0500) }
  function High(masked: bool): nat { Phys(masked, 0xFFFF, 0x0510) }

  /** Twenty-one address bits, of which the highest reads as zero if it is masked. */
  lemma PhysExactly(masked: bool, seg: Word, off: Word)
    ensures var a, linear := Phys(masked, seg, off), seg * 16 + off;
            && a % 0x100000 == linear % 0x100000
            && (a >= 0x100000 <==> linear >= 0x100000 && !masked)
            && a < MEMORY_SIZE
  {
  }

  /** One megabyte apart, or the same byte. */
  lemma ProbesExactly(masked: bool)
    ensures Low(masked) == 0x500 && High(masked) == if masked then 0x500 else 0x100500
  {
  }

  predicate Going(m: Machine) {
    |m.mem| == MEMORY_SIZE && !m.halted
  }

  /** `m'` is the state one instruction after `m`, as far as reaching `stop` is concerned. */
  ghost predicate Follows(masked: bool, m: Machine, m': Machine, stop: nat) {
    && Going(m) && Going(m') && m.pc < stop <= END && m'.pc == m.pc + 1
    && RunTo(masked, m, stop) == RunTo(masked, m', stop)
  }

  lemma PushStep(
    masked: bool, m0: Machine, m: Machine, ws: seq<Word>, ref: seq<Byte>, w: Word, stop: nat)
    returns (m': Machine)
    requires Holds(masked, m0, m, ws, ref) && |ws| < 7 && m.pc < stop <= END && Going(m)
    requires var i := PROGRAM[m.pc]; (i.PushF? && w == m.flags) || (i.Push? && w == Get(m.regs, i.r))
    ensures Follows(masked, m, m', stop)
    ensures m' == m.(pc := m.pc + 1, sp := m'.sp, mem := m'.mem)
    ensures Holds(masked, m0, m', ws + [w], ref)
  {
    m' := Step(masked, m);
    PushHolds(masked, m0, m.(pc := m.pc + 1), ws, ref, w);
  }

  lemma PopStep(
    masked: bool, m0: Machine, m: Machine, ws: seq<Word>, ref: seq<Byte>, w: Word, stop: nat)
    returns (m': Machine)
    requires Holds(masked, m0, m, ws + [w], ref) && m.pc < stop <= END && Going(m)
    requires PROGRAM[m.pc].Pop? || PROGRAM[m.pc].PopF?
    ensures Follows(masked, m, m', stop)
    ensures m' == if PROGRAM[m.pc].PopF? then m.(pc := m.pc + 1, sp := m'.sp, flags := w)
                  else m.(pc := m.pc + 1, sp := m'.sp, regs := Set(m.regs, PROGRAM[m.pc].r, w))
    ensures Holds(masked, m0, m', ws, ref)
  {
    m' := Step(masked, m);
    PopHolds(masked, m0, m.(pc := m.pc + 1), ws, ref, w);
  }

  lemma LoadStep(masked: bool, m0: Machine, m: Machine, ws: seq<Word>, ref: seq<Byte>, stop: nat) returns (m': Machine)
    requires Holds(masked, m0, m, ws, ref) && m.pc < stop <= END && Going(m)
    requires PROGRAM[m.pc].LoadAl?
    requires !InStack(masked, m0, Phys(masked, Get(m.regs, PROGRAM[m.pc].seg), Get(m.regs, PROGRAM[m.pc].off)))
    ensures Follows(masked, m, m', stop)
    ensures var i := PROGRAM[m.pc];
            var b := ref[Phys(masked, Get(m.regs, i.seg), Get(m.regs, i.off))];
            m' == m.(pc := m.pc + 1, regs := m.regs.(ax := WithAl(m.regs.ax, b)))
    ensures Holds(masked, m0, m', ws, ref)
  {
    m' := Step(masked, m);
    SameStack(masked, m0, m, m', ws, ref);
  }

  /** Both kinds of store, of the byte `b`. */
  lemma StoreStep(
    masked: bool, m0: Machine, m: Machine, ws: seq<Word>, ref: seq<Byte>, a: nat, b: Byte, stop: nat)
    returns (m': Machine)
    requires Holds(masked, m0, m, ws, ref) && m.pc < stop <= END && Going(m)
    requires var i := PROGRAM[m.pc];
             && ((i.StoreAl? && b == Al(m.regs.ax)) || (i.StoreImm? && b == i.b))
             && a == Phys(masked, Get(m.regs, i.seg), Get(m.regs, i.off)) && !InStack(masked, m0, a)
    ensures Follows(masked, m, m', stop)
    ensures m' == m.(pc := m.pc + 1, mem := m'.mem)
    ensures a < MEMORY_SIZE && Holds(masked, m0, m', ws, ref[a := b])
  {
    m' := Step(masked, m);
    var i := PROGRAM[m.pc];
    WriteHolds(masked, m0, m.(pc := m.pc + 1), ws, ref, Get(m.regs, i.seg), Get(m.regs, i.off), b);
  }

  lemma CompareStep(
    masked: bool, m0: Machine, m: Machine, ws: seq<Word>, ref: seq<Byte>, a: nat, stop: nat)
    returns (m': Machine)
    requires Holds(masked, m0, m, ws, ref) && m.pc < stop <= END && Going(m)
    requires var i := PROGRAM[m.pc];
             i.CmpImm? && a == Phys(masked, Get(m.regs, i.seg), Get(m.regs, i.off)) && !InStack(masked, m0, a)
    ensures Follows(masked, m, m', stop)
    ensures m' == m.(pc := m.pc + 1, flags := m'.flags)
    ensures a < MEMORY_SIZE && (FlagSet(m'.flags, ZF) <==> ref[a] == PROGRAM[m.pc].b)
    ensures Holds(masked, m0, m', ws, ref)
  {
    m' := Step(masked, m);
    CmpSetsZf(m.flags, ref[a], PROGRAM[m.pc].b);
    SameStack(masked, m0, m, m', ws, ref);
  }

  lemma SameStack(masked: bool, m0: Machine, m: Machine, m': Machine, ws: seq<Word>, ref: seq<Byte>)
    requires Holds(masked, m0, m, ws, ref) && m'.mem == m.mem && m'.sp == m.sp && m'.ss == m.ss
    ensures Holds(masked, m0, m', ws, ref)
  {
    forall i | 0 <= i < |ws|
      ensures WordBelow(masked, m0, m', i, ws[i])
    {
      assert WordBelow(masked, m0, m, i, ws[i]);
    }
  }

  /** Instructions that work on one register only: the value they give it. */
  lemma RegStep(
    masked: bool, m0: Machine, m: Machine, ws: seq<Word>, ref: seq<Byte>, r: Reg, w: Word, stop: nat)
    returns (m': Machine)
    requires Holds(masked, m0, m, ws, ref) && m.pc < stop <= END && Going(m)
    requires var i := PROGRAM[m.pc];
             || (i.XorSelf? && r == i.r && w == 0)
             || (i.Not? && r == i.r && w == 0xFFFF - Get(m.regs, r))
             || (i.Mov? && r == i.to && w == Get(m.regs, i.from))
             || (i.MovImm? && r == i.to && w == i.w)
    ensures Follows(masked, m, m', stop)
    ensures m' == m.(pc := m.pc + 1, regs := Set(m.regs, r, w), flags := m'.flags)
    ensures PROGRAM[m.pc].MovImm? ==> m'.flags == m.flags
    ensures Holds(masked, m0, m', ws, ref)
  {
    m' := Step(masked, m);
    SameStack(masked, m0, m, m', ws, ref);
  }

  // ---------------------------------------------------------------- the program, block by block

  /** What `m0` has saved after instruction 4. */
  function Saved(m0: Machine): seq<Word> {
    [m0.flags, m0.regs.ds, m0.regs.es, m0.regs.di, m0.regs.si]
  }

  lemma {:induction false} InitiallyHolds(masked: bool, m0: Machine)
    requires Going(m0)
    ensures Holds(masked, m0, m0, [], m0.mem)
  {
  }

  /** Instructions 0 to 4 save the flags and four registers. */
  lemma Saves(masked: bool, m0: Machine, stop: nat) returns (m: Machine)
    requires Going(m0) && m0.pc == 0 && 5 <= stop <= END
    ensures Going(m) && RunTo(masked, m0, stop) == RunTo(masked, m, stop)
    ensures m == m0.(pc := 5, sp := m.sp, mem := m.mem)
    ensures Holds(masked, m0, m, Saved(m0), m0.mem)
  {
    hide RunTo, Holds;
    var g, ref := m0.regs, m0.mem;
    InitiallyHolds(masked, m0);
    var m1 := PushStep(masked, m0, m0, [], ref, m0.flags, stop);
    assert [] + [m0.flags] == [m0.flags];
    var m2 := PushStep(masked, m0, m1, [m0.flags], ref, g.ds, stop);
    assert [m0.flags] + [g.ds] == [m0.flags, g.ds];
    var m3 := PushStep(masked, m0, m2, [m0.flags, g.ds], ref, g.es, stop);
    assert [m0.flags, g.ds] + [g.es] == [m0.flags, g.ds, g.es];
    var m4 := PushStep(masked, m0, m3, [m0.flags, g.ds, g.es], ref, g.di, stop);
    assert [m0.flags, g.ds, g.es] + [g.di] == [m0.flags, g.ds, g.es, g.di];
    m := PushStep(masked, m0, m4, [m0.flags, g.ds, g.es, g.di], ref, g.si, stop);
    assert [m0.flags, g.ds, g.es, g.di] + [g.si] == Saved(m0);
  }

  /** Instruction 5 disables interrupts. */
  lemma CliStep(masked: bool, m0: Machine, m: Machine, ws: seq<Word>, ref: seq<Byte>, stop: nat) returns (m': Machine)
    requires Holds(masked, m0, m, ws, ref) && m.pc == 5 < stop <= END && Going(m)
    ensures Follows(masked, m, m', stop)
    ensures m' == m.(pc := 6, flags := m'.flags) && Holds(masked, m0, m', ws, ref)
    ensures !FlagSet(m'.flags, IF)
  {
    m' := Step(masked, m);
    SameStack(masked, m0, m, m', ws, ref);
  }

  /** Instructions 5 to 11 form the two probe addresses. */
  lemma SetsUp(masked: bool, m0: Machine, m: Machine, ws: seq<Word>, ref: seq<Byte>, stop: nat) returns (m': Machine)
    requires Holds(masked, m0, m, ws, ref) && m.pc == 5 && 12 <= stop <= END && Going(m)
    ensures Going(m') && RunTo(masked, m, stop) == RunTo(masked, m', stop)
    ensures m' == m.(pc := 12, flags := m'.flags, regs := m'.regs)
    ensures m'.regs == m.regs.(ax := 0xFFFF, es := 0, ds := 0xFFFF, di := 0x0500, si := 0x0510)
    ensures Holds(masked, m0, m', ws, ref)
  {
    hide RunTo, Holds;
    var m1 := CliStep(masked, m0, m, ws, ref, stop);
    var m2 := RegStep(masked, m0, m1, ws, ref, AX, 0, stop);
    var m3 := RegStep(masked, m0, m2, ws, ref, ES, 0, stop);
    var m4 := RegStep(masked, m0, m3, ws, ref, AX, 0xFFFF, stop);
    var m5 := RegStep(masked, m0, m4, ws, ref, DS, 0xFFFF, stop);
    var m6 := RegStep(masked, m0, m5, ws, ref, DI, 0x0500, stop);
    m' := RegStep(masked, m0, m6, ws, ref, SI, 0x0510, stop);
  }

  predicate Probing(m: Machine) {
    m.regs.es == 0 && m.regs.ds == 0xFFFF && m.regs.di == 0x0500 && m.regs.si == 0x0510
  }

  /** AX with `b` in its low half when the probed bytes are saved. */
  function Padded(b: Byte): Word { WithAl(0xFFFF, b) }

  /** Instructions 12 to 15 save the probed bytes. */
  lemma SavesBytes(
    masked: bool, m0: Machine, m: Machine, ws: seq<Word>, ref: seq<Byte>, stop: nat)
    returns (m': Machine)
    requires Holds(masked, m0, m, ws, ref) && |ws| <= 5 && m.pc == 12 && 16 <= stop <= END && Going(m)
    requires Probing(m) && m.regs.ax == 0xFFFF
    requires |ref| == MEMORY_SIZE && !InStack(masked, m0, Low(masked)) && !InStack(masked, m0, High(masked))
    ensures Going(m') && RunTo(masked, m, stop) == RunTo(masked, m', stop)
    ensures m' == m.(pc := 16, sp := m'.sp, mem := m'.mem, regs := m.regs.(ax := m'.regs.ax))
    ensures Holds(masked, m0, m', ws + [Padded(ref[Low(masked)])] + [Padded(ref[High(masked)])], ref)
  {
    hide RunTo, Holds;
    var m1 := LoadStep(masked, m0, m, ws, ref, stop);
    var m2 := PushStep(masked, m0, m1, ws, ref, Padded(ref[Low(masked)]), stop);
    var m3 := LoadStep(masked, m0, m2, ws + [Padded(ref[Low(masked)])], ref, stop);
    m' := PushStep(masked, m0, m3, ws + [Padded(ref[Low(masked)])], ref, Padded(ref[High(masked)]), stop);
  }

  /** Instructions 16 to 18 write different bytes to both addresses and compare. */
  lemma Compares(masked: bool, m0: Machine, m: Machine, ws: seq<Word>, ref: seq<Byte>, stop: nat) returns (m': Machine)
    requires Holds(masked, m0, m, ws, ref) && m.pc == 16 && 19 <= stop <= END && Going(m) && Probing(m)
    requires |ref| == MEMORY_SIZE && !InStack(masked, m0, Low(masked)) && !InStack(masked, m0, High(masked))
    ensures Going(m') && RunTo(masked, m, stop) == RunTo(masked, m', stop)
    ensures m' == m.(pc := 19, mem := m'.mem, flags := m'.flags)
    ensures Holds(masked, m0, m', ws, ref[Low(masked) := 0][High(masked) := 0xFF])
    ensures FlagSet(m'.flags, ZF) <==> Low(masked) == High(masked)
  {
    hide RunTo, Holds;
    var m1 := StoreStep(masked, m0, m, ws, ref, Low(masked), 0, stop);
    var m2 := StoreStep(masked, m0, m1, ws, ref[Low(masked) := 0], High(masked), 0xFF, stop);
    m' := CompareStep(masked, m0, m2, ws, ref[Low(masked) := 0][High(masked) := 0xFF], Low(masked), stop);
  }

  /** A pop into AX and a store of AL put one saved byte back. */
  lemma PutsBack(masked: bool, m0: Machine, m: Machine, ws: seq<Word>, ref: seq<Byte>, a: nat, b: Byte, stop: nat)
    returns (m': Machine)
    requires Holds(masked, m0, m, ws + [Padded(b)], ref) && Going(m) && m.pc + 2 <= stop <= END
    requires PROGRAM[m.pc] == Pop(AX) && PROGRAM[m.pc + 1].StoreAl?
    requires var i := PROGRAM[m.pc + 1];
             && i.seg != AX && i.off != AX && a == Phys(masked, Get(m.regs, i.seg), Get(m.regs, i.off))
             && !InStack(masked, m0, a)
    ensures Going(m') && RunTo(masked, m, stop) == RunTo(masked, m', stop)
    ensures m' == m.(pc := m.pc + 2, sp := m'.sp, mem := m'.mem, regs := m.regs.(ax := m'.regs.ax))
    ensures a < |ref| && Holds(masked, m0, m', ws, ref[a := b])
  {
    hide RunTo, Holds, InStack;
    var m1 := PopStep(masked, m0, m, ws, ref, Padded(b), stop);
    assert Al(Padded(b)) == b;
    m' := StoreStep(masked, m0, m1, ws, ref, a, b, stop);
    HoldsSize(masked, m0, m, ws + [Padded(b)], ref);
  }

  lemma HoldsSize(masked: bool, m0: Machine, m: Machine, ws: seq<Word>, ref: seq<Byte>)
    requires Holds(masked, m0, m, ws, ref)
    ensures |ref| == MEMORY_SIZE
  {
  }

  /** Instructions 19 to 22 put the probed bytes back, the aliased one twice. */
  lemma RestoresBytes(
    masked: bool, m0: Machine, m: Machine, ws: seq<Word>, ref: seq<Byte>, low: Byte, high: Byte, stop: nat)
    returns (m': Machine)
    requires Holds(masked, m0, m, ws + [Padded(low)] + [Padded(high)], ref)
    requires m.pc == 19 && 23 <= stop <= END && Going(m) && Probing(m)
    requires |ref| == MEMORY_SIZE && !InStack(masked, m0, Low(masked)) && !InStack(masked, m0, High(masked))
    ensures Going(m') && RunTo(masked, m, stop) == RunTo(masked, m', stop)
    ensures m' == m.(pc := 23, sp := m'.sp, mem := m'.mem, regs := m.regs.(ax := m'.regs.ax))
    ensures Holds(masked, m0, m', ws, ref[High(masked) := high][Low(masked) := low])
  {
    hide RunTo, Holds, InStack, Padded;
    var m2 := PutsBack(masked, m0, m, ws + [Padded(low)], ref, High(masked), high, stop);
    m' := PutsBack(masked, m0, m2, ws, ref[High(masked) := high], Low(masked), low, stop);
  }

  lemma JumpStep(masked: bool, m0: Machine, m: Machine, ws: seq<Word>, ref: seq<Byte>, stop: nat) returns (m': Machine)
    requires Holds(masked, m0, m, ws, ref) && m.pc == 24 && 26 <= stop <= END && Going(m)
    ensures Going(m') && RunTo(masked, m, stop) == RunTo(masked, m', stop)
    ensures m' == m.(pc := if FlagSet(m.flags, ZF) then 26 else 25)
    ensures Holds(masked, m0, m', ws, ref)
  {
    m' := Step(masked, m);
    SameStack(masked, m0, m, m', ws, ref);
  }

  /** Instructions 23 to 25 turn ZF into the answer. */
  lemma Decides(masked: bool, m0: Machine, m: Machine, ws: seq<Word>, ref: seq<Byte>, stop: nat) returns (m': Machine)
    requires Holds(masked, m0, m, ws, ref) && m.pc == 23 && 26 <= stop <= END && Going(m)
    ensures Going(m') && RunTo(masked, m, stop) == RunTo(masked, m', stop)
    ensures m' == m.(pc := 26, regs := m.regs.(ax := if FlagSet(m.flags, ZF) then 0 else 1))
    ensures Holds(masked, m0, m', ws, ref)
  {
    hide RunTo, Holds;
    var m1 := RegStep(masked, m0, m, ws, ref, AX, 0, stop);
    m' := JumpStep(masked, m0, m1, ws, ref, stop);
    if !FlagSet(m.flags, ZF) {
      m' := RegStep(masked, m0, m', ws, ref, AX, 1, stop);
    }
  }

  /** Instructions 26 to 30 restore what was saved. */
  lemma Restores(masked: bool, m0: Machine, m: Machine, ref: seq<Byte>, stop: nat) returns (m': Machine)
    requires Holds(masked, m0, m, Saved(m0), ref) && m.pc == 26 && EXIT <= stop <= END && Going(m)
    ensures Going(m') && RunTo(masked, m, stop) == RunTo(masked, m', stop)
    ensures m' == m.(pc := EXIT, sp := m'.sp, flags := m0.flags,
                     regs := m.regs.(si := m0.regs.si, di := m0.regs.di, es := m0.regs.es, ds := m0.regs.ds))
    ensures Holds(masked, m0, m', [], ref)
  {
    hide RunTo, Holds;
    var g := m0.regs;
    assert [m0.flags, g.ds, g.es, g.di] + [g.si] == Saved(m0);
    var m1 := PopStep(masked, m0, m, [m0.flags, g.ds, g.es, g.di], ref, g.si, stop);
    assert [m0.flags, g.ds, g.es] + [g.di] == [m0.flags, g.ds, g.es, g.di];
    var m2 := PopStep(masked, m0, m1, [m0.flags, g.ds, g.es], ref, g.di, stop);
    assert [m0.flags, g.ds] + [g.es] == [m0.flags, g.ds, g.es];
    var m3 := PopStep(masked, m0, m2, [m0.flags, g.ds], ref, g.es, stop);
    assert [m0.flags] + [g.ds] == [m0.flags, g.ds];
    var m4 := PopStep(masked, m0, m3, [m0.flags], ref, g.ds, stop);
    assert [] + [m0.flags] == [m0.flags];
    m' := PopStep(masked, m0, m4, [], ref, m0.flags, stop);
  }

  /** From the label to the end of `check_a20` proper. */
  lemma ChecksAndRestores(masked: bool, m0: Machine, stop: nat) returns (m: Machine)
    requires Going(m0) && m0.pc == 0 && EXIT <= stop <= END
    requires !InStack(masked, m0, Low(masked)) && !InStack(masked, m0, High(masked))
    ensures Going(m) && RunTo(masked, m0, stop) == RunTo(masked, m, stop)
    ensures m == m0.(pc := EXIT, mem := m.mem, regs := m0.regs.(ax := if masked then 0 else 1))
    ensures Holds(masked, m0, m, [], m0.mem)
  {
    hide RunTo, Holds, InStack;
    var low, high := m0.mem[Low(masked)], m0.mem[High(masked)];
    var m1 := Saves(masked, m0, stop);
    var m2 := SetsUp(masked, m0, m1, Saved(m0), m0.mem, stop);
    var m3 := SavesBytes(masked, m0, m2, Saved(m0), m0.mem, stop);
    var ws := Saved(m0) + [Padded(low)] + [Padded(high)];
    var m4 := Compares(masked, m0, m3, ws, m0.mem, stop);
    var ref := m0.mem[Low(masked) := 0][High(masked) := 0xFF];
    var m5 := RestoresBytes(masked, m0, m4, Saved(m0), ref, low, high, stop);
    assert ref[High(masked) := high][Low(masked) := low] == m0.mem;
    var m6 := Decides(masked, m0, m5, Saved(m0), m0.mem, stop);
    m := Restores(masked, m0, m6, m0.mem, stop);
    StackIsBack(masked, m0, m);
  }

  lemma StackIsBack(masked: bool, m0: Machine, m: Machine)
    requires Holds(masked, m0, m, [], m0.mem)
    ensures m.sp == m0.sp
  {
  }

  lemma AddStep(masked: bool, m: Machine) returns (m': Machine)
    requires Going(m) && m.pc == 32
    ensures Follows(masked, m, m', END)
    ensures m'
         == m.(pc := 33, flags := m'.flags, regs := m.regs.(ax := WithAl(m.regs.ax, (Al(m.regs.ax) + 0x30) % 0x100)))
  {
    m' := Step(masked, m);
  }

  lemma OutStep(masked: bool, m: Machine) returns (m': Machine)
    requires Going(m) && m.pc == 33
    ensures Follows(masked, m, m', END)
    ensures m' == m.(pc := 34, out := m.out + [(m.regs.dx, Al(m.regs.ax))])
  {
    m' := Step(masked, m);
  }

  lemma HltStep(masked: bool, m: Machine)
    requires Going(m) && m.pc == 34
    ensures RunTo(masked, m, END) == m.(pc := END, halted := true)
  {
    var m' := Step(masked, m);
    assert RunTo(masked, m', END) == m';
  }

  /** Instructions 31 to 34 print the answer and halt. */
  lemma Prints(masked: bool, m: Machine)
    requires Going(m) && m.pc == EXIT
    ensures RunTo(masked, m, END).halted
    ensures RunTo(masked, m, END).out == m.out + [(0x3f8, (Al(m.regs.ax) + 0x30) % 0x100)]
  {
    hide RunTo, Holds;
    InitiallyHolds(masked, m);
    var m1 := RegStep(masked, m, m, [], m.mem, DX, 0x3f8, END);
    var m2 := AddStep(masked, m1);
    var m3 := OutStep(masked, m2);
    HltStep(masked, m3);
  }

  /**
   For every memory, register file and stack that stays clear of the probed bytes: `check_a20` restores DS, ES, DI, SI,
   SP and the flags, leaves 0 in AX exactly when bit 20 is masked and 1 otherwise, and changes no byte outside the 14
   bytes of stack it used, the probed ones included, even when they are the same byte.
   */
  lemma CheckA20(masked: bool, m0: Machine)
    requires Going(m0) && m0.pc == 0
    requires !InStack(masked, m0, Low(masked)) && !InStack(masked, m0, High(masked))
    ensures var m := RunTo(masked, m0, EXIT);
            && m.pc == EXIT && !m.halted && m.out == m0.out
            && m.regs == m0.regs.(ax := if masked then 0 else 1)
            && m.ss == m0.ss && m.sp == m0.sp && m.flags == m0.flags
            && |m.mem| == MEMORY_SIZE
            && forall a :: 0 <= a < MEMORY_SIZE && !InStack(masked, m0, a) ==> m.mem[a] == m0.mem[a]
  {
    var m := ChecksAndRestores(masked, m0, EXIT);
    assert RunTo(masked, m, EXIT) == m;
  }

  /** The whole program prints one character, '0' exactly when bit 20 is masked and '1' otherwise, and halts. */
  lemma PrintsAnswer(masked: bool, m0: Machine)
    requires Going(m0) && m0.pc == 0
    requires !InStack(masked, m0, Low(masked)) && !InStack(masked, m0, High(masked))
    ensures RunTo(masked, m0, END).halted
    ensures RunTo(masked, m0, END).out == m0.out + [(0x3f8, if masked then '0' as int else '1' as int)]
  {
    hide RunTo, Holds, InStack;
    var m := ChecksAndRestores(masked, m0, END);
    Prints(masked, m);
  }

  // ---------------------------------------------------------------- flags

  /** What the three arithmetic instructions leave in the flags; an XOR of a register with itself acts as on a zero. */
  lemma ExecSetsFlags(masked: bool, i: Instr, m: Machine)
    requires |m.mem| == MEMORY_SIZE
    ensures var f, f' := m.flags, Exec(masked, i, m).flags;
            && (i.XorSelf? ==> FlagSet(f', 0x40) && !FlagSet(f', 0x1) && !FlagSet(f', 0x800) && !FlagSet(f', 0x80))
            && (i.CmpImm? ==>
                  var a := Read(masked, m, Get(m.regs, i.seg), Get(m.regs, i.off));
                  && (FlagSet(f', 0x40) <==> a == i.b) && (FlagSet(f', 0x1) <==> a < i.b)
                  && (FlagSet(f', 0x80) != FlagSet(f', 0x800) <==> Signed(a) < Signed(i.b)))
            && (i.AddAl? ==>
                  var a := Al(m.regs.ax);
                  && (FlagSet(f', 0x1) <==> a + i.b > 0xFF) && (FlagSet(f', 0x40) <==> (a + i.b) % 0x100 == 0)
                  && (FlagSet(f', 0x800) <==> !(-0x80 <= Signed(a) + Signed(i.b) < 0x80)))
            && (!i.XorSelf? && !i.CmpImm? && !i.AddAl? && !i.Cli? && !i.PopF? ==> f' == f)
  {
    hide FlagSet, ArithFlags, CmpFlags, AddFlags, Phys;
    match i
    case XorSelf(r) => ClearedSetsFlags(m.flags);
    case CmpImm(s, o, b) => CmpSetsFlags(m.flags, Read(masked, m, Get(m.regs, s), Get(m.regs, o)), b);
    case AddAl(b) => AddSetsFlags(m.flags, Al(m.regs.ax), b);
    case _ =>
  }

  // ---------------------------------------------------------------- interrupts

  lemma ExecKeepsInterruptFlag(masked: bool, i: Instr, m: Machine)
    requires |m.mem| == MEMORY_SIZE && !i.PopF? && !i.Cli?
    ensures FlagSet(Exec(masked, i, m).flags, IF) == FlagSet(m.flags, IF)
  {
    hide FlagSet, ArithFlags, CmpFlags, AddFlags, Phys;
    match i
    case XorSelf(r) => ClearedSetsFlags(m.flags);
    case CmpImm(s, o, b) => CmpSetsFlags(m.flags, Read(masked, m, Get(m.regs, s), Get(m.regs, o)), b);
    case AddAl(b) => AddSetsFlags(m.flags, Al(m.regs.ax), b);
    case _ =>
  }

  lemma {:induction false} StayOff(masked: bool, m: Machine, stop: nat)
    requires |m.mem| == MEMORY_SIZE && 6 <= m.pc && stop <= 30 && !FlagSet(m.flags, IF)
    ensures !FlagSet(RunTo(masked, m, stop).flags, IF)
    decreases stop - m.pc
  {
    hide Exec, FlagSet;
    if !m.halted && m.pc < stop {
      assert !PROGRAM[m.pc].PopF? && !PROGRAM[m.pc].Cli?;
      ExecKeepsInterruptFlag(masked, PROGRAM[m.pc], m.(pc := m.pc + 1));
      StayOff(masked, Step(masked, m), stop);
    }
  }

  /** From the instruction after CLI on, until the flags are restored, no interrupt can come between: IF is clear. */
  lemma ProbedUndisturbed(masked: bool, m0: Machine, stop: nat)
    requires Going(m0) && m0.pc == 0 && 6 <= stop <= 30
    ensures !FlagSet(RunTo(masked, m0, stop).flags, IF)
  {
    hide Holds;
    var m1 := Saves(masked, m0, stop);
    var m2 := Step(masked, m1);
    SetFlagExactly(m1.flags, IF, false, IF);
    StayOff(masked, m2, stop);
  }
}
