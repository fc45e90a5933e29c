/**
  The program-flow and function-entry writers of `hvm/src/code.rs`:
  `write_label`, `write_goto`, `write_if` and `write_function`.

  `write_if` jumps on `D;JGT`, so only a strictly positive popped value
  jumps; the VM language's true (-1) falls through. `write_function` zeroes
  the cell LCL points at and, for two or more locals, the next cell — every
  further iteration rewrites that same second cell — and it never moves SP.
 */
module HvmFlow {
  import opened Wrappers
  import opened Hack
  import opened HvmAsm
  import opened RustInts
  import opened HvmCommands

  /** `(name)` */
  function WriteLabel(name: string): seq<Instr> {
    [Decl(name)]
  }

  /** `@name 0;JMP` */
  function WriteGoto(name: string): seq<Instr> {
    [ASym(name), C(NoDest, Zero, JMP)]
  }

  /** `POP_Y @name D;JGT` */
  function WriteIf(name: string): seq<Instr> {
    POP_Y + [ASym(name), C(NoDest, D, JGT)]
  }

  /** `@1 A=M M=0`: zeroes the cell LCL points at. */
  const ZERO_LOCAL: seq<Instr> := [AConst(LCL), C(ToA, M, NoJump), C(ToM, Zero, NoJump)]

  /** `@1 A=M+1 M=0`: zeroes the cell after the one LCL points at. */
  const ZERO_NEXT: seq<Instr> := [AConst(LCL), C(ToA, MPlusOne, NoJump), C(ToM, Zero, NoJump)]

  /** How often the loop `for _ in 1..nvars` runs. */
  function Iterations(nvars: U8): nat {
    if nvars == 0 then 0 else nvars - 1
  }

  /** `(name)`, then `ZERO_LOCAL`, then `ZERO_NEXT` once per iteration of `1..nvars`. */
  function WriteFunction(name: string, nvars: U8): seq<Instr> {
    [Decl(name)] + (ZERO_LOCAL + Repeat(ZERO_NEXT, Iterations(nvars)))
  }

  // ---------------------------------------------------------------------------
  // Labels and jumps

  /** A label occupies no ROM and binds its name to the address where it stands. */
  lemma LabelPlacement(name: string, base: int)
    ensures Rom(WriteLabel(name)) == []
    ensures Bindings(WriteLabel(name), base) == map[name := base]
  {
    var p := WriteLabel(name);
    assert p[0].Decl? && p[0].name == name && p[1..] == [];
    assert BindAll(p, base, map[]) == BindAll([], base, map[][name := base]);
    assert map[][name := base] == map[name := base];
  }

  /** A label changes nothing when control passes over it. */
  lemma LabelEffect(name: string, s: State, sym: Symbols)
    ensures Exec(WriteLabel(name), s, sym) == Fell(s)
  {
    ExecOne(Decl(name), s, sym);
  }

  /** goto always jumps to its label and changes no memory. */
  lemma GotoEffect(name: string, s: State, sym: Symbols)
    ensures Exec(WriteGoto(name), s, sym) == Jumped(sym(name), s.(a := sym(name)))
  {
    ExecTwo(ASym(name), C(NoDest, Zero, JMP), s, s.(a := sym(name)), sym);
  }

  /**
    if-goto pops y (SP decreases by one) and jumps to its label exactly when
    y, read as a signed 16-bit number, is positive.
   */
  lemma IfEffect(name: string, s: State, sym: Symbols)
    requires StdSymbols(sym) && StackDepth(s, 1)
    ensures var sp := Sp(s); var y := Mem(s, sp - 1);
      var after := State(sym(name), y, s.ram[SP := sp - 1]);
      Exec(WriteIf(name), s, sym) == if Signed(y) > 0 then Jumped(sym(name), after) else Fell(after)
  {
    var sp := Sp(s);
    var h := State(sp - 1, Mem(s, sp - 1), s.ram[SP := sp - 1]);
    PopYEffect(s, sym);
    ExecSeq(POP_Y, [ASym(name), C(NoDest, D, JGT)], s, h, sym);
    ExecTwo(ASym(name), C(NoDest, D, JGT), h, h.(a := sym(name)), sym);
  }

  /** The VM language's true, -1, does not make if-goto jump, and neither does any negative value. */
  lemma IfIgnoresNegative(name: string, s: State, sym: Symbols)
    requires StdSymbols(sym) && StackDepth(s, 1)
    requires Mem(s, Sp(s) - 1) >= 32768
    ensures Exec(WriteIf(name), s, sym).Fell?
  {
    IfEffect(name, s, sym);
  }

  // ---------------------------------------------------------------------------
  // Function entry

  /** The function label binds the name to the address of the first zeroing line. */
  lemma FunctionPlacement(name: string, nvars: U8, base: int)
    ensures Bindings(WriteFunction(name, nvars), base) == map[name := base]
    ensures |Rom(WriteFunction(name, nvars))| == 3 * (1 + Iterations(nvars))
  {
    var body := ZERO_LOCAL + Repeat(ZERO_NEXT, Iterations(nvars));
    assert NoLabels(body) by {
      forall i | 0 <= i < |body| ensures !body[i].Decl? {
        if i >= 3 {
          RepeatInstrs(ZERO_NEXT, Iterations(nvars), i - 3);
        }
      }
    }
    assert WriteFunction(name, nvars)[1..] == body;
    BindNoLabels(body, base, map[name := base]);
    RomNoLabels(body);
  }

  /** Every line of a repeated block is a line of the block. */
  lemma {:induction false} RepeatInstrs(block: seq<Instr>, n: nat, i: int)
    requires 0 <= i < n * |block|
    ensures Repeat(block, n)[i] in block
  {
    if i >= |block| {
      RepeatInstrs(block, n - 1, i - |block|);
    }
  }

  lemma ZeroLocalEffect(s: State, sym: Symbols)
    ensures var lcl := Mem(s, LCL);
      Exec(ZERO_LOCAL, s, sym) == Fell(State(lcl, s.d, s.ram[lcl := 0]))
  {
    var lcl := Mem(s, LCL);
    ExecThree(AConst(LCL), C(ToA, M, NoJump), C(ToM, Zero, NoJump), s, s.(a := LCL), s.(a := lcl), sym);
  }

  lemma ZeroNextEffect(s: State, sym: Symbols)
    ensures var next := Wrap(Mem(s, LCL) + 1);
      Exec(ZERO_NEXT, s, sym) == Fell(State(next, s.d, s.ram[next := 0]))
  {
    var next := Wrap(Mem(s, LCL) + 1);
    ExecThree(AConst(LCL), C(ToA, MPlusOne, NoJump), C(ToM, Zero, NoJump), s, s.(a := LCL), s.(a := next), sym);
  }

  /** Repeating `ZERO_NEXT` zeroes the same cell every time. */
  lemma {:induction false} ZeroNextRepeated(k: nat, s: State, sym: Symbols)
    requires k >= 1 && Wrap(Mem(s, LCL) + 1) != LCL
    ensures var next := Wrap(Mem(s, LCL) + 1);
      Exec(Repeat(ZERO_NEXT, k), s, sym) == Fell(State(next, s.d, s.ram[next := 0]))
  {
    var next := Wrap(Mem(s, LCL) + 1);
    var s1 := State(next, s.d, s.ram[next := 0]);
    ZeroNextEffect(s, sym);
    ExecSeq(ZERO_NEXT, Repeat(ZERO_NEXT, k - 1), s, s1, sym);
    if k == 1 {
      assert Repeat(ZERO_NEXT, 0) == [];
    } else {
      ZeroNextRepeated(k - 1, s1, sym);
      assert s1.ram[next := 0] == s1.ram;
    }
  }

  /**
    The function entry zeroes RAM[LCL] and, when there are at least two
    locals, RAM[LCL + 1]; nothing else changes, SP included. Neither cell
    may be LCL itself.
   */
  lemma FunctionEffect(name: string, nvars: U8, s: State, sym: Symbols)
    requires Mem(s, LCL) != LCL && Wrap(Mem(s, LCL) + 1) != LCL
    ensures var lcl := Mem(s, LCL); var next := Wrap(lcl + 1);
      Exec(WriteFunction(name, nvars), s, sym)
        == if nvars >= 2 then Fell(State(next, s.d, s.ram[lcl := 0][next := 0])) else Fell(State(lcl, s.d, s.ram[lcl := 0]))
  {
    var lcl := Mem(s, LCL);
    var s1 := State(lcl, s.d, s.ram[lcl := 0]);
    var body := ZERO_LOCAL + Repeat(ZERO_NEXT, Iterations(nvars));
    ExecOne(Decl(name), s, sym);
    ExecSeq([Decl(name)], body, s, s, sym);
    ZeroLocalEffect(s, sym);
    ExecSeq(ZERO_LOCAL, Repeat(ZERO_NEXT, Iterations(nvars)), s, s1, sym);
    if nvars >= 2 {
      ZeroNextRepeated(Iterations(nvars), s1, sym);
    } else {
      assert Repeat(ZERO_NEXT, Iterations(nvars)) == [];
    }
  }

  /**
    With three or more locals, the third local and those after it keep
    whatever the RAM held, and SP does not move past the locals.
   */
  lemma FunctionLeavesLocals(name: string, nvars: U8, s: State, sym: Symbols, i: nat)
    requires LCL < Mem(s, LCL) && 2 <= i < nvars && Mem(s, LCL) + i < Modulus
    ensures var r := Exec(WriteFunction(name, nvars), s, sym);
      && r.Fell? && Sp(r.s) == Sp(s)
      && Mem(r.s, Mem(s, LCL)) == 0 && Mem(r.s, Mem(s, LCL) + 1) == 0
      && Mem(r.s, Mem(s, LCL) + i) == Mem(s, Mem(s, LCL) + i)
  {
    FunctionEffect(name, nvars, s, sym);
  }
}
