/** The real-mode machine with its state updated in place, running the program of `A20`. */
module A20Machine {
  import opened Flags
  import opened A20

  class Cpu {
    const masked: bool
    const mem: array<Byte>
    var regs: Regs
    var ss: Word
    var sp: Word
    var flags: Word
    var pc: nat
    var halted: bool
    var out: seq<(Word, Byte)>

    ghost predicate Valid()
      reads this
    {
      mem.Length == MEMORY_SIZE
    }

    ghost function State(): (m: Machine)
      requires Valid()
      reads this, mem
      ensures |m.mem| == MEMORY_SIZE
    {
      Machine(regs, ss, sp, flags, mem[..], pc, halted, out)
    }

    constructor (masked: bool, mem: array<Byte>, regs: Regs, ss: Word, sp: Word, flags: Word)
      requires mem.Length == MEMORY_SIZE
      ensures Valid() && this.masked == masked && this.mem == mem
      ensures State() == Machine(regs, ss, sp, flags, mem[..], 0, false, [])
    {
      this.masked, this.mem := masked, mem;
      this.regs, this.ss, this.sp, this.flags := regs, ss, sp, flags;
      pc, halted, out := 0, false, [];
    }

    method Store(seg: Word, off: Word, b: Byte)
      requires Valid()
      modifies mem
      ensures State() == A20.Write(masked, old(State()), seg, off, b)
    {
      mem[Phys(masked, seg, off)] := b;
    }

    method PushW(w: Word)
      requires Valid()
      modifies this`sp, mem
      ensures State() == PushWord(masked, old(State()), w)
    {
      sp := (sp - 2) % 0x10000;
      Store(ss, sp, w % 0x100);
      Store(ss, (sp + 1) % 0x10000, w / 0x100);
    }

    method PopW() returns (w: Word)
      requires Valid()
      modifies this`sp
      ensures w == TopWord(masked, old(State())) && State() == Popped(old(State()))
    {
      var low: int, high: int := mem[Phys(masked, ss, sp)], mem[Phys(masked, ss, (sp + 1) % 0x10000)];
      w := low + 0x100 * high;
      sp := (sp + 2) % 0x10000;
    }

    method ExecuteStack(i: Instr)
      requires Valid() && (i.PushF? || i.PopF? || i.Push? || i.Pop?)
      modifies this`regs, this`sp, this`flags, mem
      ensures State() == Exec(masked, i, old(State()))
    {
      match i {
        case PushF => PushW(flags);
        case PopF => flags := PopW();
        case Push(r) => PushW(Get(regs, r));
        case Pop(r) =>
          var w := PopW();
          regs := Set(regs, r, w);
      }
    }

    method ExecuteMemory(i: Instr)
      requires Valid() && (i.LoadAl? || i.StoreAl? || i.StoreImm? || i.CmpImm?)
      modifies this`regs, this`flags, mem
      ensures State() == Exec(masked, i, old(State()))
    {
      match i {
        case LoadAl(s, o) => regs := regs.(ax := WithAl(regs.ax, mem[Phys(masked, Get(regs, s), Get(regs, o))]));
        case StoreAl(s, o) => Store(Get(regs, s), Get(regs, o), Al(regs.ax));
        case StoreImm(s, o, b) => Store(Get(regs, s), Get(regs, o), b);
        case CmpImm(s, o, b) => flags := CmpFlags(flags, mem[Phys(masked, Get(regs, s), Get(regs, o))], b);
      }
    }

    predicate RegisterOnly(i: Instr) {
      i.Cli? || i.XorSelf? || i.Not? || i.Mov? || i.MovImm? || i.Je? || i.AddAl? || i.OutDxAl? || i.Hlt?
    }

    method ExecuteRegister(i: Instr)
      requires Valid() && RegisterOnly(i)
      modifies this`regs, this`flags, this`pc, this`halted, this`out
      ensures State() == Exec(masked, i, old(State()))
    {
      hide ArithFlags, AddFlags, SetFlag, FlagSet;
      match i {
        case Cli => flags := SetFlag(flags, IF, false);
        case XorSelf(r) =>
          regs := Set(regs, r, 0);
          flags := ArithFlags(flags, false, false, FlagSet(flags, 0x10), 0);
        case Not(r) => regs := Set(regs, r, 0xFFFF - Get(regs, r));
        case Mov(to, from) => regs := Set(regs, to, Get(regs, from));
        case MovImm(to, w) => regs := Set(regs, to, w);
        case Je(skip) =>
          if FlagSet(flags, ZF) {
            pc := pc + skip;
          }
        case AddAl(b) =>
          flags := AddFlags(flags, Al(regs.ax), b);
          regs := regs.(ax := WithAl(regs.ax, (Al(regs.ax) + b) % 0x100));
        case OutDxAl => out := out + [(regs.dx, Al(regs.ax))];
        case Hlt => halted := true;
      }
    }

    method Execute(i: Instr)
      requires Valid()
      modifies this`regs, this`sp, this`flags, this`pc, this`halted, this`out, mem
      ensures State() == Exec(masked, i, old(State()))
    {
      hide Exec;
      if i.PushF? || i.PopF? || i.Push? || i.Pop? {
        ExecuteStack(i);
      } else if i.LoadAl? || i.StoreAl? || i.StoreImm? || i.CmpImm? {
        ExecuteMemory(i);
      } else {
        ExecuteRegister(i);
      }
    }

    /** Runs to the end of the program. */
    method Run()
      requires Valid() && pc <= END
      modifies this`regs, this`sp, this`flags, this`pc, this`halted, this`out, mem
      ensures State() == RunTo(masked, old(State()), END)
    {
      hide Exec;
      while !halted && pc < END
        invariant RunTo(masked, State(), END) == RunTo(masked, old(State()), END)
        decreases !halted, END - pc
      {
        ghost var before := State();
        var i := PROGRAM[pc];
        pc := pc + 1;
        Execute(i);
        assert State() == Step(masked, before);
      }
    }

    /** The program as it is started: clear of the stack it answers with '0' exactly when bit 20 is masked. */
    method CheckA20Line()
      requires Valid() && pc == 0 && !halted
      requires !InStack(masked, State(), Low(masked)) && !InStack(masked, State(), High(masked))
      modifies this`regs, this`sp, this`flags, this`pc, this`halted, this`out, mem
      ensures halted && out == old(out) + [(0x3f8, if masked then '0' as int else '1' as int)]
    {
      PrintsAnswer(masked, State());
      Run();
    }
  }
}
