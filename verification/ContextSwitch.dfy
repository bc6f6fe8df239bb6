/**
 Interrupt entry and exit of REPLAY-OS (interrupt.asm): the CPU and irq_common_stub push a
 22-word frame on the interrupted task's stack, a timer interrupt continues on the stack the
 scheduler returns, and the frame found there is popped. Memory is an array of 64-bit words;
 stack addresses are word indices, and `rsp` itself is a byte address.
 */
module ContextSwitch {

  type Word = nat

  const FRAME := 22
  const TIMER_VECTOR := 32

  /** The register state of a task: fifteen general registers and what iretq restores. */
  datatype Cpu = Cpu(
    r15: Word, r14: Word, r13: Word, r12: Word, rbp: Word, rbx: Word, r11: Word, r10: Word,
    r9: Word, r8: Word, rax: Word, rcx: Word, rdx: Word, rsi: Word, rdi: Word,
    rip: Word, cs: Word, rflags: Word, rsp: Word, ss: Word)

  /** The frame from the lowest address up, as the stub leaves it. */
  function FrameOf(c: Cpu, vector: Word): (f: seq<Word>)
    ensures |f| == FRAME
  {
    [c.r15, c.r14, c.r13, c.r12, c.rbp, c.rbx, c.r11, c.r10, c.r9, c.r8, c.rax, c.rcx, c.rdx, c.rsi, c.rdi,
     vector, 0, c.rip, c.cs, c.rflags, c.rsp, c.ss]
  }

  /** The registers a frame restores. */
  function Restore(f: seq<Word>): Cpu
    requires |f| == FRAME
  {
    Cpu(f[0], f[1], f[2], f[3], f[4], f[5], f[6], f[7], f[8], f[9], f[10], f[11], f[12], f[13], f[14],
        f[17], f[18], f[19], f[20], f[21])
  }

  /** Word index where the stack of a task with stack pointer `rsp` begins, as interrupt entry aligns it. */
  function StackBase(rsp: Word): nat {
    rsp / 16 * 2
  }

  lemma RestoreFrame(c: Cpu, vector: Word)
    ensures Restore(FrameOf(c, vector)) == c
  {}

  /** Where the stub and the processor leave what, counted in words from the stack pointer up. */
  lemma FrameLayout(c: Cpu, vector: Word)
    ensures var f := FrameOf(c, vector);
            && |f| == 22 && f[0] == c.r15 && f[1] == c.r14 && f[2] == c.r13 && f[3] == c.r12 && f[4] == c.rbp
            && f[5] == c.rbx && f[6] == c.r11 && f[7] == c.r10 && f[8] == c.r9 && f[9] == c.r8 && f[10] == c.rax
            && f[11] == c.rcx && f[12] == c.rdx && f[13] == c.rsi && f[14] == c.rdi && f[120 / 8] == vector
            && f[16] == 0 && f[17] == c.rip && f[18] == c.cs && f[19] == c.rflags && f[20] == c.rsp && f[21] == c.ss
  {}

  // ---------------------------------------------------------- the stub, push by push

  class Machine {
    const mem: array<Word>
    var cpu: Cpu
    var sp: nat            // word index of the stack pointer while in the stub

    constructor (memory: array<Word>, start: Cpu)
      ensures mem == memory && cpu == start
    {
      mem := memory;
      cpu := start;
      sp := 0;
    }

    method Push(v: Word)
      requires 0 < sp <= mem.Length
      modifies this`sp, mem
      ensures sp == old(sp) - 1
      ensures mem[sp] == v && forall i :: 0 <= i < mem.Length && i != sp ==> mem[i] == old(mem[i])
    {
      sp := sp - 1;
      mem[sp] := v;
    }

    method Pop() returns (v: Word)
      requires sp < mem.Length
      modifies this`sp
      ensures sp == old(sp) + 1 && v == mem[old(sp)]
    {
      v := mem[sp];
      sp := sp + 1;
    }

    /** Only the words from sp up to `top` differ from before. */
    twostate predicate OnlyPushed(top: nat)
      reads this, mem
    {
      && sp <= top <= mem.Length
      && forall i :: 0 <= i < mem.Length && !(sp <= i < top) ==> mem[i] == old(mem[i])
    }

    /** What the processor pushes on an interrupt in long mode: aligned stack, then SS to RIP. */
    method EnterInterrupt()
      requires 5 <= StackBase(cpu.rsp) <= mem.Length
      modifies this`sp, mem
      ensures sp == StackBase(cpu.rsp) - 5 && OnlyPushed(StackBase(cpu.rsp))
      ensures mem[sp..sp + 5] == [cpu.rip, cpu.cs, cpu.rflags, cpu.rsp, cpu.ss]
    {
      sp := StackBase(cpu.rsp);
      Push(cpu.ss);
      Push(cpu.rsp);
      Push(cpu.rflags);
      Push(cpu.cs);
      Push(cpu.rip);
    }

    /** The stub's two words and the first seven registers. */
    method SaveFirst(vector: Word)
      requires 9 <= sp <= mem.Length
      modifies this`sp, mem
      ensures sp == old(sp) - 9 && OnlyPushed(old(sp))
      ensures mem[sp..sp + 9] == [cpu.r9, cpu.r8, cpu.rax, cpu.rcx, cpu.rdx, cpu.rsi, cpu.rdi, vector, 0]
    {
      Push(0);
      Push(vector);
      Push(cpu.rdi);
      Push(cpu.rsi);
      Push(cpu.rdx);
      Push(cpu.rcx);
      Push(cpu.rax);
      Push(cpu.r8);
      Push(cpu.r9);
    }

    /** The other eight. */
    method SaveRest()
      requires 8 <= sp <= mem.Length
      modifies this`sp, mem
      ensures sp == old(sp) - 8 && OnlyPushed(old(sp))
      ensures mem[sp..sp + 8] == [cpu.r15, cpu.r14, cpu.r13, cpu.r12, cpu.rbp, cpu.rbx, cpu.r11, cpu.r10]
    {
      Push(cpu.r10);
      Push(cpu.r11);
      Push(cpu.rbx);
      Push(cpu.rbp);
      Push(cpu.r12);
      Push(cpu.r13);
      Push(cpu.r14);
      Push(cpu.r15);
    }

    /** A frame is eight registers, seven more with the stub's two words, and what the processor pushed. */
    lemma FrameAll(vector: Word)
      requires sp + FRAME <= mem.Length
      requires mem[sp..sp + 8] == [cpu.r15, cpu.r14, cpu.r13, cpu.r12, cpu.rbp, cpu.rbx, cpu.r11, cpu.r10]
      requires mem[sp + 8..sp + 17] == [cpu.r9, cpu.r8, cpu.rax, cpu.rcx, cpu.rdx, cpu.rsi, cpu.rdi, vector, 0]
      requires mem[sp + 17..sp + 22] == [cpu.rip, cpu.cs, cpu.rflags, cpu.rsp, cpu.ss]
      ensures mem[sp..sp + FRAME] == FrameOf(cpu, vector)
    {
      assert mem[sp..sp + FRAME] == mem[sp..sp + 8] + mem[sp + 8..sp + 17] + mem[sp + 17..sp + 22];
    }

    /** irq_stub and the register saves of irq_common_stub, after the processor's own pushes. */
    method SaveFrame(vector: Word)
      requires FRAME <= StackBase(cpu.rsp) <= mem.Length
      modifies this`sp, mem
      ensures sp == StackBase(cpu.rsp) - FRAME && OnlyPushed(StackBase(cpu.rsp))
      ensures mem[sp..sp + FRAME] == FrameOf(cpu, vector)
    {
      EnterInterrupt();
      ghost var high := mem[sp..sp + 5];
      SaveFirst(vector);
      ghost var middle := mem[sp..sp + 9];
      SaveRest();
      assert mem[sp + 8..sp + 17] == middle && mem[sp + 17..sp + 22] == high;
      FrameAll(vector);
    }

    /** The pops, the two skipped words and iretq. */
    method RestoreRegisters()
      requires sp + FRAME <= mem.Length
      modifies this`sp, this`cpu
      ensures cpu == Restore(mem[..][old(sp)..old(sp) + FRAME])
    {
      var r15 := Pop();
      var r14 := Pop();
      var r13 := Pop();
      var r12 := Pop();
      var rbp := Pop();
      var rbx := Pop();
      var r11 := Pop();
      var r10 := Pop();
      var r9 := Pop();
      var r8 := Pop();
      var rax := Pop();
      var rcx := Pop();
      var rdx := Pop();
      var rsi := Pop();
      var rdi := Pop();
      sp := sp + 2;
      var rip := Pop();
      var cs := Pop();
      var rflags := Pop();
      var rsp := Pop();
      var ss := Pop();
      cpu := Cpu(r15, r14, r13, r12, rbp, rbx, r11, r10, r9, r8, rax, rcx, rdx, rsi, rdi, rip, cs, rflags, rsp, ss);
    }

    /** A call into C: the callee uses the stack below sp, down to `floor` at most. */
    method CallC(floor: nat)
      requires floor <= sp <= mem.Length
      modifies mem
      ensures mem[sp..] == old(mem[sp..]) && mem[..floor] == old(mem[..floor])
    {
      var i := floor;
      while i < sp
        invariant floor <= i <= sp
        invariant mem[sp..] == old(mem[sp..]) && mem[..floor] == old(mem[..floor])
      {
        var scratch: Word := *;
        mem[i] := scratch;
        i := i + 1;
      }
    }
  }
}
