/**
  The calling protocol of `hvm/src/code.rs`: `write_call`, `write_return`
  and `write_bootstrap`, following chapter 8 of The Elements of Computing
  Systems.

  A call pushes its return address and the caller's LCL, ARG, THIS and
  THAT, points ARG at the first argument and LCL at the new stack top, and
  jumps to the callee; the return label, numbered by a random `u8` (here a
  parameter), follows the jump. A return hands the callee's top word to the
  caller in place of the arguments and restores the caller's pointers from
  the frame.
 */
module HvmCall {
  import opened Wrappers
  import opened Text
  import opened Hack
  import opened HvmAsm
  import opened RustInts
  import opened HvmCommands
  import opened HvmFlow

  /** `function$retN` for the random number N. */
  function ReturnLabel(callee: string, ret: U8): string {
    callee + "$ret" + Dec(ret)
  }

  /** `@label D=A` then `PUSH_X`: pushes the ROM address of `label`. */
  function SaveReturn(name: string): seq<Instr> {
    [ASym(name), C(ToD, A, NoJump)] + PUSH_X
  }

  /** `@reg D=M` then `PUSH_X`: pushes the value of a pointer register. */
  function SaveReg(reg: string): seq<Instr> {
    [ASym(reg), C(ToD, M, NoJump)] + PUSH_X
  }

  function SaveRegs(regs: seq<string>): seq<Instr> {
    if |regs| == 0 then [] else SaveReg(regs[0]) + SaveRegs(regs[1..])
  }

  /** The caller's pointers, in the order a call saves them. */
  const SAVED_REGISTERS: seq<string> := ["LCL", "ARG", "THIS", "THAT"]

  /** `@SP D=M @{nargs+5} D=D-A @ARG M=D` */
  function RepositionArg(nargs: U8): seq<Instr> {
    [ASym("SP"), C(ToD, M, NoJump), AConst(nargs + 5)] + [C(ToD, DMinusA, NoJump), ASym("ARG"), C(ToM, D, NoJump)]
  }

  /** `@SP D=M @LCL M=D` */
  const REPOSITION_LCL: seq<Instr> := [ASym("SP"), C(ToD, M, NoJump)] + [ASym("LCL"), C(ToM, D, NoJump)]

  /** Everything a call emits before its return label: the pushes, then the repositioning and the jump. */
  function CallBody(callee: string, nargs: U8, back: string): seq<Instr> {
    (SaveReturn(back) + SaveRegs(SAVED_REGISTERS)) + CallTail(callee, nargs)
  }

  /** `RepositionArg`, `REPOSITION_LCL`, then `@callee 0;JMP`. */
  function CallTail(callee: string, nargs: U8): seq<Instr> {
    RepositionArg(nargs) + (REPOSITION_LCL + WriteGoto(callee))
  }

  /** The fragment for `call callee nargs` with return number `ret`. */
  function WriteCall(callee: string, nargs: U8, ret: U8): seq<Instr> {
    var back := ReturnLabel(callee, ret);
    CallBody(callee, nargs, back) + [Decl(back)]
  }

  // ---------------------------------------------------------------------------
  // Pushing several words

  /** A RAM read on a bare map; absent cells read as 0. */
  function Cell(ram: map<Word, Word>, addr: Word): Word {
    if addr in ram then ram[addr] else 0
  }

  /** The RAM after pushing `ws` one by one onto a stack whose pointer is `sp`. */
  function PushAll(ram: map<Word, Word>, sp: Word, ws: seq<Word>): map<Word, Word>
    requires sp + |ws| < Modulus
    decreases |ws|
  {
    if |ws| == 0 then ram else PushAll(ram[sp := ws[0]][SP := sp + 1], sp + 1, ws[1..])
  }

  /**
    Pushing `ws` puts its words at `sp`, `sp + 1`, ..., leaves SP just past
    them and changes no other cell.
   */
  lemma {:induction false} PushAllLayout(ram: map<Word, Word>, sp: Word, ws: seq<Word>)
    requires 0 < sp && sp + |ws| < Modulus && |ws| > 0
    ensures forall k | 0 <= k < |ws| :: Cell(PushAll(ram, sp, ws), sp + k) == ws[k]
    ensures Cell(PushAll(ram, sp, ws), SP) == sp + |ws|
    ensures forall a: Word | a != SP && !(sp <= a < sp + |ws|) :: Cell(PushAll(ram, sp, ws), a) == Cell(ram, a)
    decreases |ws|
  {
    var ram1 := ram[sp := ws[0]][SP := sp + 1];
    if |ws| > 1 {
      PushAllLayout(ram1, sp + 1, ws[1..]);
      forall k | 0 <= k < |ws| ensures Cell(PushAll(ram, sp, ws), sp + k) == ws[k] {
        if k > 0 {
          assert ws[1..][k - 1] == ws[k];
        }
      }
    }
  }

  /** The values of registers `regs`, in order. */
  function RegValues(s: State, sym: Symbols, regs: seq<string>): (vs: seq<Word>)
    ensures |vs| == |regs|
  {
    if |regs| == 0 then [] else [Mem(s, sym(regs[0]))] + RegValues(s, sym, regs[1..])
  }

  /** Registers that sit strictly between SP and the stack top. */
  predicate BelowStack(s: State, sym: Symbols, regs: seq<string>) {
    forall i | 0 <= i < |regs| :: SP < sym(regs[i]) < Sp(s)
  }

  /** Writing above the registers and into SP leaves their values alone. */
  lemma {:induction false} RegValuesFrame(s: State, t: State, sym: Symbols, regs: seq<string>, sp: Word)
    requires forall i | 0 <= i < |regs| :: SP < sym(regs[i]) < sp
    requires forall a: Word | SP < a < sp :: Mem(t, a) == Mem(s, a)
    ensures RegValues(t, sym, regs) == RegValues(s, sym, regs)
  {
    if |regs| > 0 {
      RegValuesFrame(s, t, sym, regs[1..], sp);
    }
  }

  lemma SaveRegEffect(reg: string, s: State, sym: Symbols)
    requires StdSymbols(sym) && Pushable(s)
    ensures var v := Mem(s, sym(reg)); var sp := Sp(s);
      Exec(SaveReg(reg), s, sym) == Fell(State(SP, v, s.ram[sp := v][SP := sp + 1]))
  {
    var s2 := State(sym(reg), Mem(s, sym(reg)), s.ram);
    ExecTwo(ASym(reg), C(ToD, M, NoJump), s, s.(a := sym(reg)), sym);
    ExecSeq([ASym(reg), C(ToD, M, NoJump)], PUSH_X, s, s2, sym);
    PushXEffect(s2, sym);
  }

  /** Saving a list of registers pushes their values, in order. */
  lemma {:induction false} SaveRegsEffect(regs: seq<string>, s: State, sym: Symbols)
    requires StdSymbols(sym) && 0 < Sp(s) && Sp(s) + |regs| < Modulus
    requires BelowStack(s, sym, regs)
    ensures var r := Exec(SaveRegs(regs), s, sym);
      r.Fell? && r.s.ram == PushAll(s.ram, Sp(s), RegValues(s, sym, regs))
  {
    if |regs| == 0 {
      assert Exec([], s, sym) == Fell(s);
    } else {
      var sp := Sp(s);
      var v := Mem(s, sym(regs[0]));
      var s1 := State(SP, v, s.ram[sp := v][SP := sp + 1]);
      SaveRegEffect(regs[0], s, sym);
      ExecSeq(SaveReg(regs[0]), SaveRegs(regs[1..]), s, s1, sym);
      assert BelowStack(s1, sym, regs[1..]) by {
        forall i | 0 <= i < |regs[1..]| ensures SP < sym(regs[1..][i]) < Sp(s1) {
          assert regs[1..][i] == regs[i + 1];
        }
      }
      SaveRegsEffect(regs[1..], s1, sym);
      assert RegValues(s1, sym, regs[1..]) == RegValues(s, sym, regs[1..]) by {
        forall i | 0 <= i < |regs[1..]| ensures SP < sym(regs[1..][i]) < sp {
          assert regs[1..][i] == regs[i + 1];
        }
        RegValuesFrame(s, s1, sym, regs[1..], sp);
      }
    }
  }

  // ---------------------------------------------------------------------------
  // call

  /** Saving `n` registers takes seven lines each and declares no label. */
  lemma {:induction false} SaveRegsShape(regs: seq<string>)
    ensures |SaveRegs(regs)| == 7 * |regs| && NoLabels(SaveRegs(regs))
  {
    if |regs| > 0 {
      SaveRegsShape(regs[1..]);
      NoLabelsAppend(SaveReg(regs[0]), SaveRegs(regs[1..]));
    }
  }

  /**
    A call occupies 47 ROM lines and binds only its return label, to the
    address just past them.
   */
  lemma CallPlacement(callee: string, nargs: U8, ret: U8, base: int)
    ensures var back := ReturnLabel(callee, ret);
      && Bindings(WriteCall(callee, nargs, ret), base) == map[back := base + 47]
      && |Rom(WriteCall(callee, nargs, ret))| == 47
  {
    var back := ReturnLabel(callee, ret);
    var body := CallBody(callee, nargs, back);
    SaveRegsShape(SAVED_REGISTERS);
    NoLabelsAppend(SaveReturn(back), SaveRegs(SAVED_REGISTERS));
    NoLabelsAppend(SaveReturn(back) + SaveRegs(SAVED_REGISTERS), CallTail(callee, nargs));
    RomNoLabels(body);
    BindNoLabels(body, base, map[]);
    BindAppend(body, [Decl(back)], base, map[]);
    RomAppend(body, [Decl(back)]);
    assert BindAll([Decl(back)], base + 47, map[]) == BindAll([], base + 47, map[][back := base + 47]);
    assert map[][back := base + 47] == map[back := base + 47];
    assert Rom([Decl(back)]) == [] + Rom([]);
  }

  lemma SaveReturnEffect(name: string, s: State, sym: Symbols)
    requires StdSymbols(sym) && Pushable(s)
    ensures var sp := Sp(s);
      Exec(SaveReturn(name), s, sym) == Fell(State(SP, sym(name), s.ram[sp := sym(name)][SP := sp + 1]))
  {
    var s2 := State(sym(name), sym(name), s.ram);
    ExecTwo(ASym(name), C(ToD, A, NoJump), s, s.(a := sym(name)), sym);
    ExecSeq([ASym(name), C(ToD, A, NoJump)], PUSH_X, s, s2, sym);
    PushXEffect(s2, sym);
  }

  /** The five words a call saves: the return address and the caller's LCL, ARG, THIS and THAT. */
  function CallFrame(s: State, retAddr: Word): seq<Word> {
    [retAddr, Mem(s, LCL), Mem(s, ARG), Mem(s, THIS), Mem(s, THAT)]
  }

  /** The saved pointers read LCL, ARG, THIS and THAT, in that order. */
  lemma SavedPointerValues(s: State, sym: Symbols)
    requires StdSymbols(sym)
    ensures RegValues(s, sym, SAVED_REGISTERS) == [Mem(s, LCL), Mem(s, ARG), Mem(s, THIS), Mem(s, THAT)]
  {
    var p := SAVED_REGISTERS;
    assert p[1..][1..][1..][1..] == [];
    assert RegValues(s, sym, p[1..][1..][1..]) == [Mem(s, THAT)];
    assert RegValues(s, sym, p[1..][1..]) == [Mem(s, THIS), Mem(s, THAT)];
  }

  /** The pushes of a call lay the caller's frame out on the stack. */
  lemma CallPushes(back: string, s: State, sym: Symbols)
    requires StdSymbols(sym) && THAT < Sp(s) && Sp(s) + 5 < Modulus
    ensures var r := Exec(SaveReturn(back) + SaveRegs(SAVED_REGISTERS), s, sym);
      r.Fell? && r.s.ram == PushAll(s.ram, Sp(s), CallFrame(s, sym(back)))
  {
    var sp := Sp(s);
    var s1 := State(SP, sym(back), s.ram[sp := sym(back)][SP := sp + 1]);
    SaveReturnEffect(back, s, sym);
    ExecSeq(SaveReturn(back), SaveRegs(SAVED_REGISTERS), s, s1, sym);
    assert BelowStack(s1, sym, SAVED_REGISTERS) by {
      assert SAVED_REGISTERS[0] == "LCL" && SAVED_REGISTERS[1] == "ARG";
      assert SAVED_REGISTERS[2] == "THIS" && SAVED_REGISTERS[3] == "THAT";
    }
    SaveRegsEffect(SAVED_REGISTERS, s1, sym);
    SavedPointerValues(s1, sym);
    assert CallFrame(s, sym(back))[0] == sym(back);
  }

  /** `@SP D=M @{nargs+5} D=D-A @ARG M=D` sets ARG to SP - nargs - 5. */
  lemma RepositionArgEffect(nargs: U8, s: State, sym: Symbols)
    requires StdSymbols(sym)
    ensures var arg := Wrap(Sp(s) - (nargs + 5));
      Exec(RepositionArg(nargs), s, sym) == Fell(State(ARG, arg, s.ram[ARG := arg]))
  {
    var sp := Sp(s);
    var s3 := State(nargs + 5, sp, s.ram);
    var head := [ASym("SP"), C(ToD, M, NoJump), AConst(nargs + 5)];
    var tail := [C(ToD, DMinusA, NoJump), ASym("ARG"), C(ToM, D, NoJump)];
    ExecThree(ASym("SP"), C(ToD, M, NoJump), AConst(nargs + 5), s, s.(a := SP), State(SP, sp, s.ram), sym);
    ExecSeq(head, tail, s, s3, sym);
    ExecThree(tail[0], tail[1], tail[2], s3, s3.(d := Wrap(sp - (nargs + 5))), State(ARG, Wrap(sp - (nargs + 5)), s.ram), sym);
  }

  /** `@SP D=M @LCL M=D` sets LCL to SP. */
  lemma RepositionLclEffect(s: State, sym: Symbols)
    requires StdSymbols(sym)
    ensures Exec(REPOSITION_LCL, s, sym) == Fell(State(LCL, Sp(s), s.ram[LCL := Sp(s)]))
  {
    var s2 := State(SP, Sp(s), s.ram);
    ExecTwo(ASym("SP"), C(ToD, M, NoJump), s, s.(a := SP), sym);
    ExecSeq([ASym("SP"), C(ToD, M, NoJump)], [ASym("LCL"), C(ToM, D, NoJump)], s, s2, sym);
    ExecTwo(ASym("LCL"), C(ToM, D, NoJump), s2, s2.(a := LCL), sym);
  }

  /** After the pushes: ARG := SP - nargs - 5, LCL := SP, then the jump to the callee. */
  lemma CallTailEffect(callee: string, nargs: U8, s: State, sym: Symbols)
    requires StdSymbols(sym)
    ensures var sp := Sp(s); var arg := Wrap(sp - (nargs + 5));
      Exec(CallTail(callee, nargs), s, sym)
        == Jumped(sym(callee), State(sym(callee), sp, s.ram[ARG := arg][LCL := sp]))
  {
    var sp := Sp(s);
    var arg := Wrap(sp - (nargs + 5));
    var s1 := State(ARG, arg, s.ram[ARG := arg]);
    var s2 := State(LCL, sp, s1.ram[LCL := sp]);
    RepositionArgEffect(nargs, s, sym);
    ExecSeq(RepositionArg(nargs), REPOSITION_LCL + WriteGoto(callee), s, s1, sym);
    RepositionLclEffect(s1, sym);
    ExecSeq(REPOSITION_LCL, WriteGoto(callee), s1, s2, sym);
    GotoEffect(callee, s2, sym);
  }

  /** The state a call jumps to the callee in. */
  function AfterCall(callee: string, nargs: U8, ret: U8, s: State, sym: Symbols): State
    requires Sp(s) + 5 < Modulus
  {
    var sp := Sp(s);
    var pushed := PushAll(s.ram, sp, CallFrame(s, sym(ReturnLabel(callee, ret))));
    State(sym(callee), sp + 5, pushed[ARG := Wrap(sp - nargs)][LCL := sp + 5])
  }

  /**
    A call pushes the return address and the caller's LCL, ARG, THIS and
    THAT, sets ARG to the first of the `nargs` arguments below them and LCL
    to the new stack top, and jumps to the callee.
   */
  lemma CallEffect(callee: string, nargs: U8, ret: U8, s: State, sym: Symbols)
    requires StdSymbols(sym) && THAT < Sp(s) && Sp(s) + 5 < Modulus
    ensures Exec(WriteCall(callee, nargs, ret), s, sym) == Jumped(sym(callee), AfterCall(callee, nargs, ret, s, sym))
  {
    var back := ReturnLabel(callee, ret);
    var sp := Sp(s);
    var r := Exec(SaveReturn(back) + SaveRegs(SAVED_REGISTERS), s, sym);
    CallPushes(back, s, sym);
    PushAllLayout(s.ram, sp, CallFrame(s, sym(back)));
    assert Sp(r.s) == sp + 5;
    ExecSeq(SaveReturn(back) + SaveRegs(SAVED_REGISTERS), CallTail(callee, nargs), s, r.s, sym);
    CallTailEffect(callee, nargs, r.s, sym);
    ExecJumpOut(CallBody(callee, nargs, back), [Decl(back)], s, sym(callee), AfterCall(callee, nargs, ret, s, sym), sym);
  }

  /**
    The callee still holds the frame a call from `s` built at `sp`: the five
    saved words at sp .. sp+4, LCL just past them and ARG below them.
   */
  predicate FrameIntact(e: State, s: State, sp: Word, retAddr: Word) {
    && sp + 5 < Modulus
    && Mem(e, LCL) == sp + 5
    && Mem(e, sp) == retAddr && Mem(e, sp + 1) == Mem(s, LCL) && Mem(e, sp + 2) == Mem(s, ARG)
    && Mem(e, sp + 3) == Mem(s, THIS) && Mem(e, sp + 4) == Mem(s, THAT)
  }

  /** What a call leaves for the callee: SP and LCL just past the saved frame, ARG at the first argument. */
  lemma CallLeavesFrame(callee: string, nargs: U8, ret: U8, s: State, sym: Symbols)
    requires THAT < Sp(s) && Sp(s) + 5 < Modulus && nargs <= Sp(s)
    ensures Sp(AfterCall(callee, nargs, ret, s, sym)) == Sp(s) + 5
    ensures Mem(AfterCall(callee, nargs, ret, s, sym), ARG) == Sp(s) - nargs
    ensures FrameIntact(AfterCall(callee, nargs, ret, s, sym), s, Sp(s), sym(ReturnLabel(callee, ret)))
    ensures forall a: Word | THAT < a < Sp(s) :: Mem(AfterCall(callee, nargs, ret, s, sym), a) == Mem(s, a)
  {
    var sp := Sp(s);
    var ws := CallFrame(s, sym(ReturnLabel(callee, ret)));
    var pushed: map<Word, Word> := PushAll(s.ram, sp, ws);
    var c := AfterCall(callee, nargs, ret, s, sym);
    PushAllLayout(s.ram, sp, ws);
    var argAt: Word := sp - nargs;
    var top: Word := sp + 5;
    assert c.ram == pushed[ARG := argAt][LCL := top];
    assert Cell(pushed, sp) == ws[0] && Cell(pushed, sp + 1) == ws[1] && Cell(pushed, sp + 2) == ws[2];
    assert Cell(pushed, sp + 3) == ws[3] && Cell(pushed, sp + 4) == ws[4];
    assert Cell(pushed, SP) == sp + 5;
    forall a: Word | THAT < a < sp ensures Mem(c, a) == Mem(s, a) {
      assert Cell(pushed, a) == Cell(s.ram, a);
    }
  }

  // ---------------------------------------------------------------------------
  // return

  /** `@reg M=D` */
  function StoreD(reg: string): seq<Instr> {
    [ASym(reg), C(ToM, D, NoJump)]
  }

  /** `@LCL D=M @R13 M=D`: frame := LCL, kept in R13. */
  const SAVE_FRAME: seq<Instr> := [ASym("LCL"), C(ToD, M, NoJump)] + StoreD("R13")

  /** `@5 A=D-A D=M @R14 M=D`: the return address, RAM[frame - 5], kept in R14. */
  const SAVE_RET_ADDR: seq<Instr> := [AConst(5), C(ToA, DMinusA, NoJump), C(ToD, M, NoJump)] + StoreD("R14")

  /** `@ARG A=M M=D`: the result goes where the first argument was. */
  const UPDATE_ARG0: seq<Instr> := [ASym("ARG"), C(ToA, M, NoJump), C(ToM, D, NoJump)]

  /** `@ARG D=M+1 @SP M=D` */
  const UPDATE_SP: seq<Instr> := [ASym("ARG"), C(ToD, MPlusOne, NoJump)] + StoreD("SP")

  /** `@R13 D=M-1 A=D D=M @THAT M=D` */
  const UPDATE_THAT: seq<Instr> :=
    [ASym("R13"), C(ToD, MMinusOne, NoJump), C(ToA, D, NoJump), C(ToD, M, NoJump)] + StoreD("THAT")

  /** `@R13 D=M @k A=D-A D=M`: loads RAM[frame - k] into D. */
  function ReadFrame(k: nat): seq<Instr> {
    [ASym("R13"), C(ToD, M, NoJump), AConst(k)] + [C(ToA, DMinusA, NoJump), C(ToD, M, NoJump)]
  }

  /** `@R13 D=M @k A=D-A D=M @reg M=D` */
  function Restore(k: nat, reg: string): seq<Instr> {
    ReadFrame(k) + StoreD(reg)
  }

  /** `@R14 A=M 0;JMP` */
  const JUMP_RET: seq<Instr> := [ASym("R14"), C(ToA, M, NoJump), C(NoDest, Zero, JMP)]

  const RETURN_SAVE: seq<Instr> := SAVE_FRAME + SAVE_RET_ADDR
  const RETURN_RESULT: seq<Instr> := TOP_TO_D + (UPDATE_ARG0 + UPDATE_SP)
  const RESTORE_REGISTERS: seq<Instr> := UPDATE_THAT + (Restore(2, "THIS") + (Restore(3, "ARG") + Restore(4, "LCL")))

  /** The fragment for `return`. */
  const WRITE_RETURN: seq<Instr> := RETURN_SAVE + (RETURN_RESULT + (RESTORE_REGISTERS + JUMP_RET))

  lemma StoreDEffect(reg: string, s: State, sym: Symbols)
    ensures Exec(StoreD(reg), s, sym) == Fell(State(sym(reg), s.d, s.ram[sym(reg) := s.d]))
  {
    ExecTwo(ASym(reg), C(ToM, D, NoJump), s, s.(a := sym(reg)), sym);
  }

  lemma SaveFrameEffect(s: State, sym: Symbols)
    requires StdSymbols(sym)
    ensures var f := Mem(s, LCL); Exec(SAVE_FRAME, s, sym) == Fell(State(R13, f, s.ram[R13 := f]))
  {
    var s2 := State(LCL, Mem(s, LCL), s.ram);
    ExecTwo(ASym("LCL"), C(ToD, M, NoJump), s, s.(a := LCL), sym);
    ExecSeq([ASym("LCL"), C(ToD, M, NoJump)], StoreD("R13"), s, s2, sym);
    StoreDEffect("R13", s2, sym);
  }

  lemma SaveRetAddrEffect(s: State, sym: Symbols)
    requires StdSymbols(sym) && 5 <= s.d
    ensures var r := Mem(s, s.d - 5); Exec(SAVE_RET_ADDR, s, sym) == Fell(State(R14, r, s.ram[R14 := r]))
  {
    var head := [AConst(5), C(ToA, DMinusA, NoJump), C(ToD, M, NoJump)];
    var s3 := State(s.d - 5, Mem(s, s.d - 5), s.ram);
    ExecThree(head[0], head[1], head[2], s, s.(a := 5), s.(a := s.d - 5), sym);
    ExecSeq(head, StoreD("R14"), s, s3, sym);
    StoreDEffect("R14", s3, sym);
  }

  /** frame := LCL into R13, then the return address RAM[frame - 5] into R14. */
  lemma ReturnSaveEffect(s: State, sym: Symbols)
    requires StdSymbols(sym) && 20 <= Mem(s, LCL)
    ensures var f := Mem(s, LCL); var r := Mem(s, f - 5);
      Exec(RETURN_SAVE, s, sym) == Fell(State(R14, r, s.ram[R13 := f][R14 := r]))
  {
    var f := Mem(s, LCL);
    var s1 := State(R13, f, s.ram[R13 := f]);
    SaveFrameEffect(s, sym);
    ExecSeq(SAVE_FRAME, SAVE_RET_ADDR, s, s1, sym);
    SaveRetAddrEffect(s1, sym);
  }

  lemma UpdateArg0Effect(s: State, sym: Symbols)
    requires StdSymbols(sym)
    ensures var arg := Mem(s, ARG); Exec(UPDATE_ARG0, s, sym) == Fell(State(arg, s.d, s.ram[arg := s.d]))
  {
    ExecThree(ASym("ARG"), C(ToA, M, NoJump), C(ToM, D, NoJump), s, s.(a := ARG), s.(a := Mem(s, ARG)), sym);
  }

  lemma UpdateSpEffect(s: State, sym: Symbols)
    requires StdSymbols(sym) && Mem(s, ARG) + 1 < Modulus
    ensures var n := Mem(s, ARG) + 1; Exec(UPDATE_SP, s, sym) == Fell(State(SP, n, s.ram[SP := n]))
  {
    var s2 := State(ARG, Mem(s, ARG) + 1, s.ram);
    ExecTwo(ASym("ARG"), C(ToD, MPlusOne, NoJump), s, s.(a := ARG), sym);
    ExecSeq([ASym("ARG"), C(ToD, MPlusOne, NoJump)], StoreD("SP"), s, s2, sym);
    StoreDEffect("SP", s2, sym);
  }

  /** The callee's top word goes to the first argument's cell, and SP to just above it. */
  lemma ReturnResultEffect(s: State, sym: Symbols)
    requires StdSymbols(sym) && 0 < Sp(s) && THAT < Mem(s, ARG) < Modulus - 1
    ensures var arg := Mem(s, ARG); var y := Mem(s, Sp(s) - 1);
      Exec(RETURN_RESULT, s, sym) == Fell(State(SP, arg + 1, s.ram[arg := y][SP := arg + 1]))
  {
    var arg := Mem(s, ARG);
    var y := Mem(s, Sp(s) - 1);
    var s1 := s.(a := Sp(s) - 1, d := y);
    var s2 := State(arg, y, s.ram[arg := y]);
    TopToDEffect(s, sym);
    ExecSeq(TOP_TO_D, UPDATE_ARG0 + UPDATE_SP, s, s1, sym);
    UpdateArg0Effect(s1, sym);
    ExecSeq(UPDATE_ARG0, UPDATE_SP, s1, s2, sym);
    UpdateSpEffect(s2, sym);
  }

  lemma ReadFrameEffect(k: nat, s: State, sym: Symbols)
    requires StdSymbols(sym) && k <= Mem(s, R13)
    ensures var c := Mem(s, R13) - k; Exec(ReadFrame(k), s, sym) == Fell(State(c, Mem(s, c), s.ram))
  {
    var f := Mem(s, R13);
    var head := [ASym("R13"), C(ToD, M, NoJump), AConst(k)];
    var s3 := State(k, f, s.ram);
    ExecThree(head[0], head[1], head[2], s, s.(a := R13), State(R13, f, s.ram), sym);
    ExecSeq(head, [C(ToA, DMinusA, NoJump), C(ToD, M, NoJump)], s, s3, sym);
    ExecTwo(C(ToA, DMinusA, NoJump), C(ToD, M, NoJump), s3, s3.(a := f - k), sym);
  }

  lemma RestoreEffect(k: nat, reg: string, s: State, sym: Symbols)
    requires StdSymbols(sym) && k <= Mem(s, R13)
    ensures var v := Mem(s, Mem(s, R13) - k);
      Exec(Restore(k, reg), s, sym) == Fell(State(sym(reg), v, s.ram[sym(reg) := v]))
  {
    var c := Mem(s, R13) - k;
    ReadFrameEffect(k, s, sym);
    ExecSeq(ReadFrame(k), StoreD(reg), s, State(c, Mem(s, c), s.ram), sym);
    StoreDEffect(reg, State(c, Mem(s, c), s.ram), sym);
  }

  lemma UpdateThatEffect(s: State, sym: Symbols)
    requires StdSymbols(sym) && 1 <= Mem(s, R13)
    ensures var v := Mem(s, Mem(s, R13) - 1);
      Exec(UPDATE_THAT, s, sym) == Fell(State(THAT, v, s.ram[THAT := v]))
  {
    var c := Mem(s, R13) - 1;
    var head := [ASym("R13"), C(ToD, MMinusOne, NoJump), C(ToA, D, NoJump), C(ToD, M, NoJump)];
    var s2 := State(R13, c, s.ram);
    var s4 := State(c, Mem(s, c), s.ram);
    ExecTwo(head[0], head[1], s, s.(a := R13), sym);
    ExecSeq([head[0], head[1]], [head[2], head[3]], s, s2, sym);
    ExecTwo(head[2], head[3], s2, s2.(a := c), sym);
    assert head == [head[0], head[1]] + [head[2], head[3]];
    ExecSeq(head, StoreD("THAT"), s, s4, sym);
    StoreDEffect("THAT", s4, sym);
  }

  /** The four restores read frame - 1 ... frame - 4 into THAT, THIS, ARG and LCL. */
  lemma RestorePointersEffect(s: State, sym: Symbols)
    requires StdSymbols(sym) && 20 <= Mem(s, R13)
    ensures var f := Mem(s, R13);
      Exec(RESTORE_REGISTERS, s, sym)
        == Fell(State(LCL, Mem(s, f - 4),
          s.ram[THAT := Mem(s, f - 1)][THIS := Mem(s, f - 2)][ARG := Mem(s, f - 3)][LCL := Mem(s, f - 4)]))
  {
    var f := Mem(s, R13);
    var s1 := State(THAT, Mem(s, f - 1), s.ram[THAT := Mem(s, f - 1)]);
    var s2 := State(THIS, Mem(s, f - 2), s1.ram[THIS := Mem(s, f - 2)]);
    var s3 := State(ARG, Mem(s, f - 3), s2.ram[ARG := Mem(s, f - 3)]);
    UpdateThatEffect(s, sym);
    ExecSeq(UPDATE_THAT, Restore(2, "THIS") + (Restore(3, "ARG") + Restore(4, "LCL")), s, s1, sym);
    RestoreEffect(2, "THIS", s1, sym);
    ExecSeq(Restore(2, "THIS"), Restore(3, "ARG") + Restore(4, "LCL"), s1, s2, sym);
    RestoreEffect(3, "ARG", s2, sym);
    ExecSeq(Restore(3, "ARG"), Restore(4, "LCL"), s2, s3, sym);
    RestoreEffect(4, "LCL", s3, sym);
  }

  lemma JumpRetEffect(s: State, sym: Symbols)
    requires StdSymbols(sym)
    ensures var r := Mem(s, R14); Exec(JUMP_RET, s, sym) == Jumped(r, s.(a := r))
  {
    ExecThree(ASym("R14"), C(ToA, M, NoJump), C(NoDest, Zero, JMP), s, s.(a := R14), s.(a := Mem(s, R14)), sym);
  }

  /** The stack a return expects: ARG above the fixed registers, the five saved words between ARG and LCL, a result above LCL. */
  predicate ReturnReady(s: State) {
    15 <= Mem(s, ARG) && Mem(s, ARG) + 5 <= Mem(s, LCL) < Sp(s)
  }

  /** The state a return jumps back in, read off the frame LCL points at. */
  function AfterReturn(s: State): State
    requires ReturnReady(s)
  {
    var f := Mem(s, LCL);
    var arg := Mem(s, ARG);
    var retAddr := Mem(s, f - 5);
    var y := Mem(s, Sp(s) - 1);
    State(retAddr, Mem(s, f - 4),
      s.ram[R13 := f][R14 := retAddr][arg := y][SP := arg + 1]
        [THAT := Mem(s, f - 1)][THIS := Mem(s, f - 2)][ARG := Mem(s, f - 3)][LCL := Mem(s, f - 4)])
  }

  /** The restores and the jump, from wherever R13 and R14 were left. */
  lemma ReturnTailEffect(s: State, sym: Symbols)
    requires StdSymbols(sym) && 20 <= Mem(s, R13)
    ensures var f := Mem(s, R13); var r := Mem(s, R14);
      Exec(RESTORE_REGISTERS + JUMP_RET, s, sym)
        == Jumped(r, State(r, Mem(s, f - 4),
          s.ram[THAT := Mem(s, f - 1)][THIS := Mem(s, f - 2)][ARG := Mem(s, f - 3)][LCL := Mem(s, f - 4)]))
  {
    var f := Mem(s, R13);
    var t := State(LCL, Mem(s, f - 4),
      s.ram[THAT := Mem(s, f - 1)][THIS := Mem(s, f - 2)][ARG := Mem(s, f - 3)][LCL := Mem(s, f - 4)]);
    RestorePointersEffect(s, sym);
    ExecSeq(RESTORE_REGISTERS, JUMP_RET, s, t, sym);
    JumpRetEffect(t, sym);
  }

  /** The saves, the result and the new SP; then the restores run on what they left. */
  lemma ReturnHeadEffect(s: State, sym: Symbols)
    requires StdSymbols(sym) && ReturnReady(s)
    ensures var f := Mem(s, LCL); var arg := Mem(s, ARG); var r := Mem(s, f - 5);
      Exec(WRITE_RETURN, s, sym)
        == Exec(RESTORE_REGISTERS + JUMP_RET, State(SP, arg + 1, s.ram[R13 := f][R14 := r][arg := Mem(s, Sp(s) - 1)][SP := arg + 1]), sym)
  {
    var f := Mem(s, LCL);
    var arg := Mem(s, ARG);
    var r := Mem(s, f - 5);
    var s1 := State(R14, r, s.ram[R13 := f][R14 := r]);
    ReturnSaveEffect(s, sym);
    ExecSeq(RETURN_SAVE, RETURN_RESULT + (RESTORE_REGISTERS + JUMP_RET), s, s1, sym);
    ReturnResultEffect(s1, sym);
    ExecSeq(RETURN_RESULT, RESTORE_REGISTERS + JUMP_RET, s1, State(SP, arg + 1, s1.ram[arg := Mem(s, Sp(s) - 1)][SP := arg + 1]), sym);
  }

  /**
    A return stores the callee's top word where the first argument was,
    sets SP just above it, restores THAT, THIS, ARG and LCL from the four
    words below LCL and jumps to the return address saved five below LCL.
   */
  lemma ReturnEffect(s: State, sym: Symbols)
    requires StdSymbols(sym) && ReturnReady(s)
    ensures Exec(WRITE_RETURN, s, sym) == Jumped(Mem(s, Mem(s, LCL) - 5), AfterReturn(s))
  {
    var f := Mem(s, LCL);
    var arg := Mem(s, ARG);
    var r := Mem(s, f - 5);
    ReturnHeadEffect(s, sym);
    ReturnTailEffect(State(SP, arg + 1, s.ram[R13 := f][R14 := r][arg := Mem(s, Sp(s) - 1)][SP := arg + 1]), sym);
  }

  /**
    After a return: SP sits just above the old ARG, which holds the result;
    below it, from R15 up, every cell is as it was.
   */
  lemma ReturnMeaning(s: State)
    requires ReturnReady(s)
    ensures var t := AfterReturn(s); var arg := Mem(s, ARG); var f := Mem(s, LCL);
      && Sp(t) == arg + 1 && Mem(t, arg) == Mem(s, Sp(s) - 1)
      && Mem(t, THAT) == Mem(s, f - 1) && Mem(t, THIS) == Mem(s, f - 2)
      && Mem(t, ARG) == Mem(s, f - 3) && Mem(t, LCL) == Mem(s, f - 4)
      && forall a: Word | R14 < a < arg :: Mem(t, a) == Mem(s, a)
  {
  }

  /**
    The calling protocol: if the callee returns with the frame its call
    built still in place and a result on top of its stack, control comes
    back to the return label with the result where the arguments were, SP
    just above it and the caller's LCL, ARG, THIS and THAT restored.
   */
  lemma CallReturn(callee: string, nargs: U8, ret: U8, s: State, e: State, sym: Symbols)
    requires StdSymbols(sym) && nargs + 15 <= Sp(s) && Sp(s) + 5 < Modulus
    requires FrameIntact(e, s, Sp(s), sym(ReturnLabel(callee, ret)))
    requires Mem(e, ARG) == Sp(s) - nargs && Sp(s) + 5 < Sp(e)
    ensures var r := Exec(WRITE_RETURN, e, sym); var base := Sp(s) - nargs;
      && r.Jumped? && r.target == sym(ReturnLabel(callee, ret))
      && Sp(r.s) == base + 1 && Mem(r.s, base) == Mem(e, Sp(e) - 1)
      && Mem(r.s, LCL) == Mem(s, LCL) && Mem(r.s, ARG) == Mem(s, ARG)
      && Mem(r.s, THIS) == Mem(s, THIS) && Mem(r.s, THAT) == Mem(s, THAT)
      && forall a: Word | R14 < a < base :: Mem(r.s, a) == Mem(e, a)
  {
    ReturnEffect(e, sym);
    ReturnMeaning(e);
  }

  // ---------------------------------------------------------------------------
  // Bootstrap

  /** `@256 D=A @SP M=D` */
  const INIT_SP: seq<Instr> := [AConst(256), C(ToD, A, NoJump)] + StoreD("SP")

  /** SP := 256, then `call Sys.init 0`. */
  function WriteBootstrap(ret: U8): seq<Instr> {
    INIT_SP + WriteCall("Sys.init", 0, ret)
  }

  lemma InitSpEffect(s: State, sym: Symbols)
    requires StdSymbols(sym)
    ensures Exec(INIT_SP, s, sym) == Fell(State(SP, 256, s.ram[SP := 256]))
  {
    var s2 := State(256, 256, s.ram);
    ExecTwo(AConst(256), C(ToD, A, NoJump), s, s.(a := 256), sym);
    ExecSeq([AConst(256), C(ToD, A, NoJump)], StoreD("SP"), s, s2, sym);
    StoreDEffect("SP", s2, sym);
  }

  /**
    Bootstrap: whatever the RAM held, control reaches Sys.init with SP and
    LCL at 261, ARG at 256 and the return address of the bootstrap call at
    RAM[256].
   */
  lemma BootstrapEffect(ret: U8, s: State, sym: Symbols)
    requires StdSymbols(sym)
    ensures var r := Exec(WriteBootstrap(ret), s, sym);
      && r.Jumped? && r.target == sym("Sys.init")
      && Sp(r.s) == 261 && Mem(r.s, LCL) == 261 && Mem(r.s, ARG) == 256
      && Mem(r.s, 256) == sym(ReturnLabel("Sys.init", ret))
  {
    var s1 := State(SP, 256, s.ram[SP := 256]);
    InitSpEffect(s, sym);
    ExecSeq(INIT_SP, WriteCall("Sys.init", 0, ret), s, s1, sym);
    CallEffect("Sys.init", 0, ret, s1, sym);
    CallLeavesFrame("Sys.init", 0, ret, s1, sym);
  }
}
