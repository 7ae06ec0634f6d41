/** The assembly stubs as pushes and pops on a stack, the context record the C dispatcher
    reads through, and complete interrupts nested to any depth.

    `mem` is the kernel stack, addressed in bytes and accessed in 32-bit words.  Interrupts
    come from ring 0, so the CPU pushes no stack pointer. */
module StubFrames {

  type Word = v: int | 0 <= v < 0x1_0000_0000
  type Selector = v: int | 0 <= v < 0x1_0000

  const KERNEL_DATA: Selector := 0x10
  const KERNEL_CODE: Selector := 0x08

  datatype Regs = Regs(
    eax: Word, ecx: Word, edx: Word, ebx: Word, esp: int, ebp: Word, esi: Word, edi: Word,
    ds: Selector, es: Selector, fs: Selector, gs: Selector, cs: Selector,
    eip: Word, eflags: Word
  )

  /** interrupt_context_t, in memory order. */
  datatype Context = Context(
    gs: Word, fs: Word, es: Word, ds: Word,
    edi: Word, esi: Word, ebp: Word, esp: Word, ebx: Word, edx: Word, ecx: Word, eax: Word,
    intNo: Word, errCode: Word,
    eip: Word, cs: Word, eflags: Word, useresp: Word, ss: Word
  )

  /** The three stub macros. */
  datatype Stub = Isr(n: nat) | IsrError(n: nat) | Irq(n: nat)

  function LowExceptionStubs(): seq<Stub> {
    [Isr(0), Isr(1), Isr(2), Isr(3), Isr(4), Isr(5), Isr(6), Isr(7),
     IsrError(8), Isr(9), IsrError(10), IsrError(11), IsrError(12), IsrError(13), IsrError(14), Isr(15)]
  }

  function HighExceptionStubs(): seq<Stub> {
    [Isr(16), IsrError(17), Isr(18), Isr(19), Isr(20), Isr(21), Isr(22), Isr(23),
     Isr(24), Isr(25), Isr(26), Isr(27), Isr(28), Isr(29), IsrError(30), Isr(31)]
  }

  function IrqStubs(): seq<Stub> {
    [Irq(0), Irq(1), Irq(2), Irq(3), Irq(4), Irq(5), Irq(6), Irq(7),
     Irq(8), Irq(9), Irq(10), Irq(11), Irq(12), Irq(13), Irq(14), Irq(15)]
  }

  const STUBS := 48

  /** The stub whose address the installer puts at vector v. */
  function StubOf(v: nat): Stub
    requires v < STUBS
  {
    if v < 16 then LowExceptionStubs()[v]
    else if v < 32 then HighExceptionStubs()[v - 16]
    else IrqStubs()[v - 32]
  }

  /** The number a stub pushes. */
  function PushedNumber(stub: Stub): nat {
    match stub case Isr(n) => n case IsrError(n) => n case Irq(n) => n + 32
  }

  /** The CPU itself pushes an error code for these vectors. */
  predicate CpuPushesError(vector: nat) {
    vector == 8 || 10 <= vector <= 14 || vector == 17 || vector == 30
  }

  predicate Matches(stub: Stub, v: nat) {
    PushedNumber(stub) == v && (stub.IsrError? <==> CpuPushesError(v))
  }

  lemma {:induction false} LowStubsMatch(v: nat)
    requires v < 16
    ensures Matches(LowExceptionStubs()[v], v)
  {
  }

  lemma {:induction false} HighStubsMatch(v: nat)
    requires 16 <= v < 32
    ensures Matches(HighExceptionStubs()[v - 16], v)
  {
  }

  lemma {:induction false} IrqStubsMatch(v: nat)
    requires 32 <= v < STUBS
    ensures Matches(IrqStubs()[v - 32], v)
  {
  }

  /** The stub of vector v pushes number v, and a zero exactly where the CPU pushed nothing:
      every vector gets one error word. */
  lemma {:induction false} StubsMatchTheCpu(v: nat)
    requires v < STUBS
    ensures PushedNumber(StubOf(v)) == v
    ensures StubOf(v).IsrError? <==> CpuPushesError(v)
    ensures StubOf(v).IsrError? <==> v in {8, 10, 11, 12, 13, 14, 17, 30}
  {
    hide LowExceptionStubs, HighExceptionStubs, IrqStubs;
    if v < 16 {
      LowStubsMatch(v);
    } else if v < 32 {
      HighStubsMatch(v);
    } else {
      IrqStubsMatch(v);
    }
  }

  /** An interrupt as a tree: what its handler does, complete interrupts included. */
  datatype Interrupt = Interrupt(vector: nat, error: Word, body: seq<Act>)
  datatype Act =
    | Work(regs: Regs, depth: nat, pushed: seq<Word>)   // any register values, the stack pointer
                                                        // below the argument, words pushed
    | Argument(v: Word)                                  // the argument's slot written
    | Nested(inner: Interrupt)

  predicate HasStub(i: Interrupt) {
    && i.vector < STUBS
    && forall a :: a in i.body && a.Nested? ==> HasStub(a.inner)
  }

  const INTERRUPT_FLAG := 0x200

  /** Bit 9 is clear afterwards, and no other bit changes. */
  lemma {:induction false} IfIsClear(eflags: Word)
    ensures ClearIf(eflags) == eflags - (if eflags / 512 % 2 == 1 then 512 else 0)
    ensures ClearIf(eflags) / 512 % 2 == 0 && ClearIf(ClearIf(eflags)) == ClearIf(eflags)
  {
  }

  function ClearIf(eflags: Word): Word {
    if eflags / INTERRUPT_FLAG % 2 == 1 then eflags - INTERRUPT_FLAG else eflags
  }

  function Load(mem: map<int, Word>, a: int): Word {
    if a in mem then mem[a] else 0
  }

  /** The record as the dispatcher's pointer p shows it. */
  function ContextAt(mem: map<int, Word>, p: int): Context {
    Context(Load(mem, p), Load(mem, p + 4), Load(mem, p + 8), Load(mem, p + 12),
            Load(mem, p + 16), Load(mem, p + 20), Load(mem, p + 24), Load(mem, p + 28),
            Load(mem, p + 32), Load(mem, p + 36), Load(mem, p + 40), Load(mem, p + 44),
            Load(mem, p + 48), Load(mem, p + 52),
            Load(mem, p + 56), Load(mem, p + 60), Load(mem, p + 64), Load(mem, p + 68), Load(mem, p + 72))
  }

  /** The record in memory: the words the CPU and the stub push, lowest address first. */
  ghost predicate LaidOutAt(mem: map<int, Word>, p: int, r: Regs, vector: nat, error: Word) {
    && Load(mem, p) == r.gs && Load(mem, p + 4) == r.fs && Load(mem, p + 8) == r.es && Load(mem, p + 12) == r.ds
    && Load(mem, p + 16) == r.edi && Load(mem, p + 20) == r.esi && Load(mem, p + 24) == r.ebp
    && Load(mem, p + 32) == r.ebx && Load(mem, p + 36) == r.edx && Load(mem, p + 40) == r.ecx
    && Load(mem, p + 44) == r.eax && Load(mem, p + 48) == vector
    && Load(mem, p + 52) == (if vector in {8, 10, 11, 12, 13, 14, 17, 30} then error else 0)
    && Load(mem, p + 56) == r.eip && Load(mem, p + 60) == r.cs && Load(mem, p + 64) == r.eflags
  }

  lemma {:induction false} RecordLayout(mem: map<int, Word>, p: int, r: Regs, vector: nat, error: Word)
    requires Records(ContextAt(mem, p), r, vector, error)
    ensures LaidOutAt(mem, p, r, vector, error)
  {
    hide Load, CpuPushesError;
    ErrorVectors(vector);
  }

  lemma {:induction false} ErrorVectors(vector: nat)
    ensures CpuPushesError(vector) <==> vector in {8, 10, 11, 12, 13, 14, 17, 30}
  {
  }

  /** What the record has to say of the interrupted registers. */
  ghost predicate Records(c: Context, r: Regs, vector: nat, error: Word) {
    && c.gs == r.gs && c.fs == r.fs && c.es == r.es && c.ds == r.ds
    && c.edi == r.edi && c.esi == r.esi && c.ebp == r.ebp && c.ebx == r.ebx
    && c.edx == r.edx && c.ecx == r.ecx && c.eax == r.eax
    && c.intNo == vector && c.errCode == (if CpuPushesError(vector) then error else 0)
    && c.eip == r.eip && c.cs == r.cs && c.eflags == r.eflags
  }

  /** Two stacks agree from address a up. */
  ghost predicate SameFrom(mem: map<int, Word>, mem': map<int, Word>, a: int) {
    forall b :: b >= a ==> Load(mem, b) == Load(mem', b)
  }

  const FRAME_BYTES := 68

  class Cpu {
    var r: Regs
    var mem: map<int, Word>

    constructor (r: Regs, mem: map<int, Word>)
      ensures this.r == r && this.mem == mem
    {
      this.r, this.mem := r, mem;
    }

    method Push(v: Word)
      modifies this
      ensures r == old(r).(esp := old(r.esp) - 4)
      ensures mem == old(mem)[old(r.esp) - 4 := v]
    {
      r := r.(esp := r.esp - 4);
      mem := mem[r.esp := v];
    }

    method Pop() returns (v: Word)
      modifies this`r
      ensures v == Load(mem, old(r.esp)) && r == old(r).(esp := old(r.esp) + 4)
    {
      v := Load(mem, r.esp);
      r := r.(esp := r.esp + 4);
    }

    /** The CPU's part: an interrupt gate saves eflags, cs and eip and clears IF. */
    method TakeGate(vector: nat, error: Word, target: Word)
      modifies this
      ensures r == old(r).(esp := old(r.esp) - (if CpuPushesError(vector) then 16 else 12),
                           eflags := ClearIf(old(r.eflags)), cs := KERNEL_CODE, eip := target)
      ensures SameFrom(mem, old(mem), old(r.esp))
      ensures Load(mem, old(r.esp) - 4) == old(r.eflags)
      ensures Load(mem, old(r.esp) - 8) == old(r.cs)
      ensures Load(mem, old(r.esp) - 12) == old(r.eip)
      ensures CpuPushesError(vector) ==> Load(mem, old(r.esp) - 16) == error
    {
      Push(r.eflags);
      Push(r.cs);
      Push(r.eip);
      if CpuPushesError(vector) {
        Push(error);
      }
      r := r.(eflags := ClearIf(r.eflags), cs := KERNEL_CODE, eip := target);
    }

    /** The stub proper: error word unless the CPU pushed it, then the number. */
    method EnterStub(stub: Stub)
      requires PushedNumber(stub) < 128
      modifies this
      ensures r == old(r).(esp := old(r.esp) - (if stub.IsrError? then 4 else 8), eflags := ClearIf(old(r.eflags)))
      ensures SameFrom(mem, old(mem), old(r.esp))
      ensures Load(mem, r.esp) == PushedNumber(stub)
      ensures !stub.IsrError? ==> Load(mem, r.esp + 4) == 0
    {
      r := r.(eflags := ClearIf(r.eflags));
      if !stub.IsrError? {
        Push(0);
      }
      Push(PushedNumber(stub));
    }

    /** Four words, the first one highest. */
    method PushFour(a: Word, b: Word, c: Word, d: Word)
      modifies this
      ensures r == old(r).(esp := old(r.esp) - 16)
      ensures SameFrom(mem, old(mem), old(r.esp))
      ensures Load(mem, r.esp + 12) == a && Load(mem, r.esp + 8) == b
      ensures Load(mem, r.esp + 4) == c && Load(mem, r.esp) == d
    {
      Push(a);
      Push(b);
      Push(c);
      Push(d);
    }

    /** pushad pushes the stack pointer as it was before. */
    method Pushad()
      modifies this
      ensures r == old(r).(esp := old(r.esp) - 32)
      ensures SameFrom(mem, old(mem), old(r.esp))
      ensures Load(mem, r.esp) == old(r.edi) && Load(mem, r.esp + 4) == old(r.esi)
      ensures Load(mem, r.esp + 8) == old(r.ebp)
      ensures Load(mem, r.esp + 12) == old(r.esp) % 0x1_0000_0000
      ensures Load(mem, r.esp + 16) == old(r.ebx) && Load(mem, r.esp + 20) == old(r.edx)
      ensures Load(mem, r.esp + 24) == old(r.ecx) && Load(mem, r.esp + 28) == old(r.eax)
    {
      var before := r.esp;
      PushFour(r.eax, r.ecx, r.edx, r.ebx);
      PushFour(before % 0x1_0000_0000, r.ebp, r.esi, r.edi);
    }

    /** popad skips the saved stack pointer. */
    method Popad()
      modifies this`r
      ensures r == old(r).(
        edi := Load(mem, old(r.esp)), esi := Load(mem, old(r.esp) + 4), ebp := Load(mem, old(r.esp) + 8),
        ebx := Load(mem, old(r.esp) + 16), edx := Load(mem, old(r.esp) + 20),
        ecx := Load(mem, old(r.esp) + 24), eax := Load(mem, old(r.esp) + 28), esp := old(r.esp) + 32)
    {
      var edi := Pop();
      var esi := Pop();
      var ebp := Pop();
      var skipped := Pop();
      var ebx := Pop();
      var edx := Pop();
      var ecx := Pop();
      var eax := Pop();
      r := r.(edi := edi, esi := esi, ebp := ebp, ebx := ebx, edx := edx, ecx := ecx, eax := eax);
    }

    /** Save the four data segments and load the kernel's. */
    method SaveSegments()
      modifies this
      ensures r == old(r).(esp := old(r.esp) - 16, eax := r.eax, ds := KERNEL_DATA, es := KERNEL_DATA,
                           fs := KERNEL_DATA, gs := KERNEL_DATA)
      ensures SameFrom(mem, old(mem), old(r.esp))
      ensures Load(mem, r.esp) == old(r.gs) && Load(mem, r.esp + 4) == old(r.fs)
      ensures Load(mem, r.esp + 8) == old(r.es) && Load(mem, r.esp + 12) == old(r.ds)
    {
      PushFour(r.ds, r.es, r.fs, r.gs);
      r := r.(eax := r.eax - r.eax % 0x1_0000 + KERNEL_DATA,
              ds := KERNEL_DATA, es := KERNEL_DATA, fs := KERNEL_DATA, gs := KERNEL_DATA);
    }

    /** IDT_ISR_Stub up to the call: save everything, load the kernel's data segments and
        push the record's address. */
    method SaveContext()
      modifies this
      ensures r.esp == old(r.esp) - 52 && Load(mem, r.esp) == (r.esp + 4) % 0x1_0000_0000
      ensures SameFrom(mem, old(mem), old(r.esp))
      ensures r.ds == KERNEL_DATA && r.es == KERNEL_DATA && r.fs == KERNEL_DATA && r.gs == KERNEL_DATA
      ensures r.cs == old(r.cs) && r.eip == old(r.eip) && r.eflags == old(r.eflags)
      ensures var c := ContextAt(mem, old(r.esp) - 48);
        && c.gs == old(r.gs) && c.fs == old(r.fs) && c.es == old(r.es) && c.ds == old(r.ds)
        && c.edi == old(r.edi) && c.esi == old(r.esi) && c.ebp == old(r.ebp) && c.ebx == old(r.ebx)
        && c.edx == old(r.edx) && c.ecx == old(r.ecx) && c.eax == old(r.eax)
        && c.esp == old(r.esp) % 0x1_0000_0000
        && c.intNo == Load(old(mem), old(r.esp)) && c.errCode == Load(old(mem), old(r.esp) + 4)
        && c.eip == Load(old(mem), old(r.esp) + 8) && c.cs == Load(old(mem), old(r.esp) + 12)
        && c.eflags == Load(old(mem), old(r.esp) + 16)
        && c.useresp == Load(old(mem), old(r.esp) + 20) && c.ss == Load(old(mem), old(r.esp) + 24)
    {
      Pushad();
      SaveSegments();
      r := r.(eax := r.esp % 0x1_0000_0000);
      label saved:
      Push(r.eax);
      assert SameFrom(mem, old@saved(mem), old@saved(r.esp));
    }

    /** Drop the record's address and restore the four data segments. */
    method RestoreSegments()
      modifies this`r
      ensures r == old(r).(esp := old(r.esp) + 20, eax := r.eax,
                           gs := Load(mem, old(r.esp) + 4) % 0x1_0000, fs := Load(mem, old(r.esp) + 8) % 0x1_0000,
                           es := Load(mem, old(r.esp) + 12) % 0x1_0000, ds := Load(mem, old(r.esp) + 16) % 0x1_0000)
    {
      var pointer := Pop();
      var gs := Pop();
      var fs := Pop();
      var es := Pop();
      var ds := Pop();
      r := r.(eax := pointer, gs := gs % 0x1_0000, fs := fs % 0x1_0000, es := es % 0x1_0000, ds := ds % 0x1_0000);
    }

    /** Drop the number and the error word, iret. */
    method Leave()
      modifies this`r
      ensures r == old(r).(esp := old(r.esp) + 20, eip := Load(mem, old(r.esp) + 8),
                           cs := Load(mem, old(r.esp) + 12) % 0x1_0000, eflags := Load(mem, old(r.esp) + 16))
    {
      r := r.(esp := r.esp + 8);
      var eip := Pop();
      var cs := Pop();
      var eflags := Pop();
      r := r.(eip := eip, cs := cs % 0x1_0000, eflags := eflags);
    }

    /** IDT_ISR_Stub after the call. */
    method RestoreContext()
      modifies this`r
      ensures var c := ContextAt(mem, old(r.esp) + 4);
        r == Regs(c.eax, c.ecx, c.edx, c.ebx, old(r.esp) + 4 + FRAME_BYTES, c.ebp, c.esi, c.edi,
                  c.ds % 0x1_0000, c.es % 0x1_0000, c.fs % 0x1_0000, c.gs % 0x1_0000, c.cs % 0x1_0000,
                  c.eip, c.eflags)
    {
      RestoreSegments();
      Popad();
      Leave();
    }

    method PushAll(words: seq<Word>)
      modifies this
      ensures r.esp <= old(r.esp) && SameFrom(mem, old(mem), old(r.esp))
    {
      for i := 0 to |words|
        invariant r.esp <= old(r.esp) && SameFrom(mem, old(mem), old(r.esp))
      {
        Push(words[i]);
      }
    }

    /** From the interrupted instruction to the dispatcher: the record it is handed says what
        the registers were, and has one shape for every vector with a stub. */
    method EnterDispatcher(vector: nat, error: Word, target: Word) returns (p: int)
      requires vector < STUBS
      modifies this
      ensures p == old(r.esp) - FRAME_BYTES
      ensures r.esp == p - 4 && Load(mem, p - 4) == p % 0x1_0000_0000
      ensures Records(ContextAt(mem, p), old(r), vector, error)
      ensures LaidOutAt(mem, p, old(r), vector, error)
      ensures ContextAt(mem, p).esp == (p + 48) % 0x1_0000_0000
      ensures ContextAt(mem, p).useresp == Load(old(mem), old(r.esp))
      ensures ContextAt(mem, p).ss == Load(old(mem), old(r.esp) + 4)
      ensures r.eflags == old(r.eflags) - (if old(r.eflags) / 512 % 2 == 1 then 512 else 0)
      ensures r.eflags / 512 % 2 == 0
      ensures r.ds == 0x10 && r.es == 0x10 && r.fs == 0x10 && r.gs == 0x10 && r.cs == 0x08 && r.eip == target
      ensures SameFrom(mem, old(mem), old(r.esp))
    {
      StubsMatchTheCpu(vector);
      IfIsClear(r.eflags);
      hide ClearIf;
      TakeGate(vector, error, target);
      EnterStub(StubOf(vector));
      SaveContext();
      p := r.esp + 4;
      RecordLayout(mem, p, old(r), vector, error);
    }

    /** The call of the dispatcher: it may leave any register values and any words below its
        frame, write its argument's slot, take complete interrupts in between, and returns to
        its caller's stack pointer. */
    method CallHandler(i: Interrupt)
      requires HasStub(i)
      modifies this
      ensures r.esp == old(r.esp) && SameFrom(mem, old(mem), old(r.esp) + 4)
      decreases i, 0
    {
      var caller := r.esp;
      Push(r.eip);
      for k := 0 to |i.body|
        invariant r.esp < caller && SameFrom(mem, old(mem), caller + 4)
      {
        assert i.body[k] in i.body;
        match i.body[k] {
          case Work(regs, depth, pushed) =>
            r := regs.(esp := caller - 4 - depth);
            PushAll(pushed);
          case Argument(v) =>
            mem := mem[caller := v];
          case Nested(inner) =>
            ServeInterrupt(inner, r.eip);
        }
      }
      r := r.(esp := caller);
    }

    /** A complete interrupt, interrupts nested inside it included, gives back every register
        and the whole stack above. */
    method ServeInterrupt(i: Interrupt, target: Word)
      requires HasStub(i)
      modifies this
      ensures r == old(r)
      ensures SameFrom(mem, old(mem), old(r.esp))
      decreases i, 1
    {
      var p := EnterDispatcher(i.vector, i.error, target);
      ghost var c := ContextAt(mem, p);
      CallHandler(i);
      assert ContextAt(mem, r.esp + 4) == c;
      RestoreContext();
    }
  }
}
