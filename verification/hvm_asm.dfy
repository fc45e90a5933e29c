/**
  The fixed Hack fragments of `hvm/src/asm.rs` and their effect on the VM
  stack of the standard mapping (RAM[0] is SP; the stack grows upwards and
  its top word is RAM[SP-1]).

  Each effect lemma gives the exact machine state a fragment falls off in,
  so that fragments can be chained with `Hack.ExecSeq`. In words: `x` is the
  word below the top, `y` the top word, `sp` the stack pointer before.
 */
module HvmAsm {
  import opened Hack

  function Sp(s: State): Word {
    Mem(s, SP)
  }

  /** The stack pointer lies above address `n`: the top `n` stack cells are not SP itself. */
  predicate StackDepth(s: State, n: nat) {
    n < Sp(s)
  }

  /** A word can be pushed: the cell at SP is not SP itself and SP+1 is still a word. */
  predicate Pushable(s: State) {
    0 < Sp(s) < Modulus - 1
  }


  /** `@SP A=M-1`: points A at the top word of the stack. */
  const GET_X: seq<Instr> := [ASym("SP"), C(ToA, MMinusOne, NoJump)]

  /** `@SP M=M-1` */
  const DEC_SP: seq<Instr> := [ASym("SP"), C(ToM, MMinusOne, NoJump)]

  /** `@SP M=M+1` */
  const INC_SP: seq<Instr> := [ASym("SP"), C(ToM, MPlusOne, NoJump)]

  /** `@SP A=M-1 D=M`: loads the top word into D. */
  const TOP_TO_D: seq<Instr> := GET_X + [C(ToD, M, NoJump)]

  /** Loads the top word into D and drops it from the stack. */
  const D_POP: seq<Instr> := TOP_TO_D + DEC_SP

  const ADD: seq<Instr> := D_POP + (GET_X + [C(ToD, DPlusM, NoJump), C(ToM, D, NoJump)])

  /** `@SP A=M A=A-1 A=A-1 D=M A=A+1 D=D-M`: computes x - y into D. */
  const SUB_DIFF: seq<Instr> :=
    [ASym("SP"), C(ToA, M, NoJump), C(ToA, AMinusOne, NoJump), C(ToA, AMinusOne, NoJump)]
    + [C(ToD, M, NoJump), C(ToA, APlusOne, NoJump), C(ToD, DMinusM, NoJump)]

  /** `@SP M=M-1 M=M-1 A=M M=D @SP M=M+1`: stores D two cells below SP, then SP is one less. */
  const SUB_STORE: seq<Instr> :=
    (DEC_SP + [C(ToM, MMinusOne, NoJump), C(ToA, M, NoJump), C(ToM, D, NoJump)]) + INC_SP

  const SUB: seq<Instr> := SUB_DIFF + SUB_STORE

  const POP_Y: seq<Instr> := DEC_SP + [C(ToA, M, NoJump), C(ToD, M, NoJump)]

  const PUSH_X: seq<Instr> := [ASym("SP"), C(ToA, M, NoJump), C(ToM, D, NoJump)] + INC_SP

  const NEG: seq<Instr> := GET_X + [C(ToM, NegM, NoJump)]

  const AND: seq<Instr> := D_POP + [C(ToA, MMinusOne, NoJump), C(ToD, DAndM, NoJump), C(ToM, D, NoJump)]

  /** `@SP A=M-1 D=M M=0`: loads the top word into D and clears its cell. */
  const TOP_CLEAR: seq<Instr> := GET_X + [C(ToD, M, NoJump), C(ToM, Zero, NoJump)]

  const OR: seq<Instr> := TOP_CLEAR + (DEC_SP + [C(ToA, MMinusOne, NoJump), C(ToM, DOrM, NoJump)])

  const NOT: seq<Instr> := GET_X + [C(ToM, NotM, NoJump)]

  /** GET_X points A at the top of the stack and changes nothing else. */
  lemma GetXEffect(s: State, sym: Symbols)
    requires StdSymbols(sym) && StackDepth(s, 0)
    ensures Exec(GET_X, s, sym) == Fell(s.(a := Sp(s) - 1))
  {
    ExecTwo(ASym("SP"), C(ToA, MMinusOne, NoJump), s, s.(a := SP), sym);
  }

  lemma DecSpEffect(s: State, sym: Symbols)
    requires StdSymbols(sym) && StackDepth(s, 0)
    ensures Exec(DEC_SP, s, sym) == Fell(State(SP, s.d, s.ram[SP := Sp(s) - 1]))
  {
    ExecTwo(ASym("SP"), C(ToM, MMinusOne, NoJump), s, s.(a := SP), sym);
  }

  lemma IncSpEffect(s: State, sym: Symbols)
    requires StdSymbols(sym) && Sp(s) < Modulus - 1
    ensures Exec(INC_SP, s, sym) == Fell(State(SP, s.d, s.ram[SP := Sp(s) + 1]))
  {
    ExecTwo(ASym("SP"), C(ToM, MPlusOne, NoJump), s, s.(a := SP), sym);
  }

  /** PUSH_X stores D at RAM[SP] and increments SP; D is kept. */
  lemma PushXEffect(s: State, sym: Symbols)
    requires StdSymbols(sym) && Pushable(s)
    ensures Exec(PUSH_X, s, sym) == Fell(State(SP, s.d, s.ram[Sp(s) := s.d][SP := Sp(s) + 1]))
  {
    var sp := Sp(s);
    var head := [ASym("SP"), C(ToA, M, NoJump), C(ToM, D, NoJump)];
    var s1 := s.(a := SP);
    var s2 := s1.(a := sp);
    var s3 := s2.(ram := s.ram[sp := s.d]);
    assert ExecFrom(head, 2, s2, sym) == Fell(s3);
    assert ExecFrom(head, 1, s1, sym) == Fell(s3);
    ExecSeq(head, INC_SP, s, s3, sym);
    IncSpEffect(s3, sym);
  }

  /** POP_Y decrements SP and loads D from the new RAM[SP], the old top. */
  lemma PopYEffect(s: State, sym: Symbols)
    requires StdSymbols(sym) && StackDepth(s, 1)
    ensures Exec(POP_Y, s, sym) == Fell(State(Sp(s) - 1, Mem(s, Sp(s) - 1), s.ram[SP := Sp(s) - 1]))
  {
    var sp := Sp(s);
    var s1 := State(SP, s.d, s.ram[SP := sp - 1]);
    DecSpEffect(s, sym);
    ExecSeq(DEC_SP, [C(ToA, M, NoJump), C(ToD, M, NoJump)], s, s1, sym);
    ExecTwo(C(ToA, M, NoJump), C(ToD, M, NoJump), s1, s1.(a := sp - 1), sym);
  }

  lemma TopToDEffect(s: State, sym: Symbols)
    requires StdSymbols(sym) && StackDepth(s, 0)
    ensures Exec(TOP_TO_D, s, sym) == Fell(s.(a := Sp(s) - 1, d := Mem(s, Sp(s) - 1)))
  {
    assert TOP_TO_D == [ASym("SP"), C(ToA, MMinusOne, NoJump), C(ToD, M, NoJump)];
    ExecThree(ASym("SP"), C(ToA, MMinusOne, NoJump), C(ToD, M, NoJump), s, s.(a := SP), s.(a := Sp(s) - 1), sym);
  }

  /** D_POP moves the top word y into D and decrements SP. */
  lemma DPopEffect(s: State, sym: Symbols)
    requires StdSymbols(sym) && StackDepth(s, 1)
    ensures Exec(D_POP, s, sym) == Fell(State(SP, Mem(s, Sp(s) - 1), s.ram[SP := Sp(s) - 1]))
  {
    var s1 := s.(a := Sp(s) - 1, d := Mem(s, Sp(s) - 1));
    TopToDEffect(s, sym);
    DecSpEffect(s1, sym);
    ExecSeq(TOP_TO_D, DEC_SP, s, s1, sym);
  }

  /** The second half of ADD: adds D to the new top word and stores the sum there. */
  lemma AddTail(s: State, sym: Symbols)
    requires StdSymbols(sym) && StackDepth(s, 0)
    ensures var sp := Sp(s); var r := Wrap(Mem(s, sp - 1) + s.d);
      Exec(GET_X + [C(ToD, DPlusM, NoJump), C(ToM, D, NoJump)], s, sym)
        == Fell(State(sp - 1, r, s.ram[sp - 1 := r]))
  {
    var s1 := s.(a := Sp(s) - 1);
    GetXEffect(s, sym);
    ExecSeq(GET_X, [C(ToD, DPlusM, NoJump), C(ToM, D, NoJump)], s, s1, sym);
    ExecTwo(C(ToD, DPlusM, NoJump), C(ToM, D, NoJump), s1, s1.(d := Wrap(Mem(s, Sp(s) - 1) + s.d)), sym);
  }

  /** ADD pops y and x and pushes x + y modulo 2^16: SP decreases by one. */
  lemma AddEffect(s: State, sym: Symbols)
    requires StdSymbols(sym) && StackDepth(s, 2)
    ensures var sp := Sp(s); var r := Wrap(Mem(s, sp - 2) + Mem(s, sp - 1));
      Exec(ADD, s, sym) == Fell(State(sp - 2, r, s.ram[SP := sp - 1][sp - 2 := r]))
  {
    var sp := Sp(s);
    var s1 := State(SP, Mem(s, sp - 1), s.ram[SP := sp - 1]);
    DPopEffect(s, sym);
    AddTail(s1, sym);
    ExecSeq(D_POP, GET_X + [C(ToD, DPlusM, NoJump), C(ToM, D, NoJump)], s, s1, sym);
  }

  /** The first four lines of SUB point A two words below SP. */
  lemma SubLoad(s: State, sym: Symbols)
    requires StdSymbols(sym) && StackDepth(s, 2)
    ensures Exec([ASym("SP"), C(ToA, M, NoJump), C(ToA, AMinusOne, NoJump), C(ToA, AMinusOne, NoJump)], s, sym)
         == Fell(s.(a := Sp(s) - 2))
  {
    var p := [ASym("SP"), C(ToA, M, NoJump), C(ToA, AMinusOne, NoJump), C(ToA, AMinusOne, NoJump)];
    var sp := Sp(s);
    assert ExecFrom(p, 3, s.(a := sp - 1), sym) == Fell(s.(a := sp - 2));
    assert ExecFrom(p, 2, s.(a := sp), sym) == Fell(s.(a := sp - 2));
    assert ExecFrom(p, 1, s.(a := SP), sym) == Fell(s.(a := sp - 2));
  }

  /** SUB_DIFF leaves x - y modulo 2^16 in D and A pointing at the top word. */
  lemma SubDiffEffect(s: State, sym: Symbols)
    requires StdSymbols(sym) && StackDepth(s, 2)
    ensures var sp := Sp(s);
      Exec(SUB_DIFF, s, sym) == Fell(s.(a := sp - 1, d := Wrap(Mem(s, sp - 2) - Mem(s, sp - 1))))
  {
    var sp := Sp(s);
    var x := Mem(s, sp - 2);
    var h1 := [ASym("SP"), C(ToA, M, NoJump), C(ToA, AMinusOne, NoJump), C(ToA, AMinusOne, NoJump)];
    var h2 := [C(ToD, M, NoJump), C(ToA, APlusOne, NoJump), C(ToD, DMinusM, NoJump)];
    var s1 := s.(a := sp - 2);
    SubLoad(s, sym);
    ExecSeq(h1, h2, s, s1, sym);
    ExecThree(C(ToD, M, NoJump), C(ToA, APlusOne, NoJump), C(ToD, DMinusM, NoJump), s1, s1.(d := x), s1.(d := x, a := sp - 1), sym);
  }

  /** `M=M-1 A=M M=D` with A at SP: decrements SP and stores D at the new SP. */
  lemma SubPut(s: State, sym: Symbols)
    requires s.a == SP && StackDepth(s, 0)
    ensures var sp := Sp(s);
      Exec([C(ToM, MMinusOne, NoJump), C(ToA, M, NoJump), C(ToM, D, NoJump)], s, sym)
        == Fell(State(sp - 1, s.d, s.ram[SP := sp - 1][sp - 1 := s.d]))
  {
    var s1 := s.(ram := s.ram[SP := Sp(s) - 1]);
    ExecThree(C(ToM, MMinusOne, NoJump), C(ToA, M, NoJump), C(ToM, D, NoJump), s, s1, s1.(a := Sp(s) - 1), sym);
  }

  /** The middle of SUB_STORE: decrements SP twice and stores D at the new SP. */
  lemma SubWrite(s: State, sym: Symbols)
    requires StdSymbols(sym) && StackDepth(s, 1)
    ensures var sp := Sp(s);
      Exec(DEC_SP + [C(ToM, MMinusOne, NoJump), C(ToA, M, NoJump), C(ToM, D, NoJump)], s, sym)
        == Fell(State(sp - 2, s.d, s.ram[SP := sp - 1][SP := sp - 2][sp - 2 := s.d]))
  {
    var s1 := State(SP, s.d, s.ram[SP := Sp(s) - 1]);
    DecSpEffect(s, sym);
    SubPut(s1, sym);
    ExecSeq(DEC_SP, [C(ToM, MMinusOne, NoJump), C(ToA, M, NoJump), C(ToM, D, NoJump)], s, s1, sym);
  }

  /** SUB_STORE writes D two cells below SP and leaves SP one less than before. */
  lemma SubStoreEffect(s: State, sym: Symbols)
    requires StdSymbols(sym) && StackDepth(s, 2)
    ensures var sp := Sp(s);
      Exec(SUB_STORE, s, sym) == Fell(State(SP, s.d, s.ram[SP := sp - 1][sp - 2 := s.d]))
  {
    var sp := Sp(s);
    var s1 := State(sp - 2, s.d, s.ram[SP := sp - 1][SP := sp - 2][sp - 2 := s.d]);
    SubWrite(s, sym);
    IncSpEffect(s1, sym);
    ExecSeq(DEC_SP + [C(ToM, MMinusOne, NoJump), C(ToA, M, NoJump), C(ToM, D, NoJump)], INC_SP, s, s1, sym);
    assert s1.ram[SP := sp - 1] == s.ram[SP := sp - 1][sp - 2 := s.d];
  }

  /** SUB pops y and x and pushes x - y modulo 2^16: SP decreases by one. */
  lemma SubEffect(s: State, sym: Symbols)
    requires StdSymbols(sym) && StackDepth(s, 2)
    ensures var sp := Sp(s); var r := Wrap(Mem(s, sp - 2) - Mem(s, sp - 1));
      Exec(SUB, s, sym) == Fell(State(SP, r, s.ram[SP := sp - 1][sp - 2 := r]))
  {
    var sp := Sp(s);
    var s1 := s.(a := sp - 1, d := Wrap(Mem(s, sp - 2) - Mem(s, sp - 1)));
    SubDiffEffect(s, sym);
    SubStoreEffect(s1, sym);
    ExecSeq(SUB_DIFF, SUB_STORE, s, s1, sym);
  }

  /** NEG replaces the top word y by -y modulo 2^16; SP is unchanged. */
  lemma NegEffect(s: State, sym: Symbols)
    requires StdSymbols(sym) && StackDepth(s, 1)
    ensures var sp := Sp(s);
      Exec(NEG, s, sym) == Fell(State(sp - 1, s.d, s.ram[sp - 1 := Wrap(0 - Mem(s, sp - 1))]))
  {
    GetXEffect(s, sym);
    ExecSeq(GET_X, [C(ToM, NegM, NoJump)], s, s.(a := Sp(s) - 1), sym);
    ExecOne(C(ToM, NegM, NoJump), s.(a := Sp(s) - 1), sym);
  }

  /** NOT replaces the top word y by its bitwise complement; SP is unchanged. */
  lemma NotEffect(s: State, sym: Symbols)
    requires StdSymbols(sym) && StackDepth(s, 1)
    ensures var sp := Sp(s);
      Exec(NOT, s, sym) == Fell(State(sp - 1, s.d, s.ram[sp - 1 := Not16(Mem(s, sp - 1))]))
  {
    GetXEffect(s, sym);
    ExecSeq(GET_X, [C(ToM, NotM, NoJump)], s, s.(a := Sp(s) - 1), sym);
    ExecOne(C(ToM, NotM, NoJump), s.(a := Sp(s) - 1), sym);
  }

  /** `A=M-1 D=D&M M=D` with A at SP: combines D with the top word and stores the result there. */
  lemma AndPut(s: State, sym: Symbols)
    requires s.a == SP && StackDepth(s, 0)
    ensures var sp := Sp(s); var r := And16(s.d, Mem(s, sp - 1));
      Exec([C(ToA, MMinusOne, NoJump), C(ToD, DAndM, NoJump), C(ToM, D, NoJump)], s, sym)
        == Fell(State(sp - 1, r, s.ram[sp - 1 := r]))
  {
    var s1 := s.(a := Sp(s) - 1);
    ExecThree(C(ToA, MMinusOne, NoJump), C(ToD, DAndM, NoJump), C(ToM, D, NoJump), s, s1,
              s1.(d := And16(s.d, Mem(s, Sp(s) - 1))), sym);
  }

  /** AND pops y and x and pushes their bitwise conjunction: SP decreases by one. */
  lemma AndEffect(s: State, sym: Symbols)
    requires StdSymbols(sym) && StackDepth(s, 2)
    ensures var sp := Sp(s); var r := And16(Mem(s, sp - 1), Mem(s, sp - 2));
      Exec(AND, s, sym) == Fell(State(sp - 2, r, s.ram[SP := sp - 1][sp - 2 := r]))
  {
    var sp := Sp(s);
    var s1 := State(SP, Mem(s, sp - 1), s.ram[SP := sp - 1]);
    DPopEffect(s, sym);
    AndPut(s1, sym);
    ExecSeq(D_POP, [C(ToA, MMinusOne, NoJump), C(ToD, DAndM, NoJump), C(ToM, D, NoJump)], s, s1, sym);
  }

  lemma TopClearEffect(s: State, sym: Symbols)
    requires StdSymbols(sym) && StackDepth(s, 0)
    ensures var sp := Sp(s);
      Exec(TOP_CLEAR, s, sym) == Fell(State(sp - 1, Mem(s, sp - 1), s.ram[sp - 1 := 0]))
  {
    var s1 := s.(a := Sp(s) - 1);
    var mid := [C(ToD, M, NoJump), C(ToM, Zero, NoJump)];
    GetXEffect(s, sym);
    ExecSeq(GET_X, mid, s, s1, sym);
    ExecTwo(C(ToD, M, NoJump), C(ToM, Zero, NoJump), s1, s1.(d := Mem(s, Sp(s) - 1)), sym);
  }

  /** `A=M-1 M=D|M` with A at SP: combines D into the top word. */
  lemma OrPut(s: State, sym: Symbols)
    requires s.a == SP && StackDepth(s, 0)
    ensures var sp := Sp(s);
      Exec([C(ToA, MMinusOne, NoJump), C(ToM, DOrM, NoJump)], s, sym)
        == Fell(State(sp - 1, s.d, s.ram[sp - 1 := Or16(s.d, Mem(s, sp - 1))]))
  {
    ExecTwo(C(ToA, MMinusOne, NoJump), C(ToM, DOrM, NoJump), s, s.(a := Sp(s) - 1), sym);
  }

  /** The second half of OR: drops the cleared cell and combines D into the new top word. */
  lemma OrTail(s: State, sym: Symbols)
    requires StdSymbols(sym) && StackDepth(s, 2)
    ensures var sp := Sp(s);
      Exec(DEC_SP + [C(ToA, MMinusOne, NoJump), C(ToM, DOrM, NoJump)], s, sym)
        == Fell(State(sp - 2, s.d, s.ram[SP := sp - 1][sp - 2 := Or16(s.d, Mem(s, sp - 2))]))
  {
    var s1 := State(SP, s.d, s.ram[SP := Sp(s) - 1]);
    DecSpEffect(s, sym);
    OrPut(s1, sym);
    ExecSeq(DEC_SP, [C(ToA, MMinusOne, NoJump), C(ToM, DOrM, NoJump)], s, s1, sym);
  }

  /**
    OR pops y and x and pushes their bitwise disjunction: SP decreases by
    one, and the vacated cell that held y is set to 0.
   */
  lemma OrEffect(s: State, sym: Symbols)
    requires StdSymbols(sym) && StackDepth(s, 2)
    ensures var sp := Sp(s); var y := Mem(s, sp - 1); var r := Or16(y, Mem(s, sp - 2));
      Exec(OR, s, sym) == Fell(State(sp - 2, y, s.ram[sp - 1 := 0][SP := sp - 1][sp - 2 := r]))
  {
    var sp := Sp(s);
    var s1 := State(sp - 1, Mem(s, sp - 1), s.ram[sp - 1 := 0]);
    TopClearEffect(s, sym);
    OrTail(s1, sym);
    ExecSeq(TOP_CLEAR, DEC_SP + [C(ToA, MMinusOne, NoJump), C(ToM, DOrM, NoJump)], s, s1, sym);
  }
}
