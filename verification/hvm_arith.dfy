/**
  `write_arithmetic` of `hvm/src/code.rs`: the Hack fragment for each of the
  nine arithmetic-logical VM commands, and what running it does to the VM
  stack.

  The comparisons eq, gt and lt compute x - y and branch on it through two
  labels `COUNT_n` whose numbers `n` the source draws at random from
  1000..=99999; here the two draws are parameters.
 */
module HvmArith {
  import opened Wrappers
  import opened Text
  import opened Hack
  import opened HvmAsm
  import HvmParser

  /** A value of `rand::random_range(1000..=99999)`. */
  type Draw = n: int | 1000 <= n <= 99999 witness 1000

  function CountLabel(n: Draw): string {
    "COUNT_" + Dec(n)
  }

  /** Different draws give different labels. */
  lemma CountLabelInjective(m: Draw, n: Draw)
    ensures CountLabel(m) == CountLabel(n) <==> m == n
  {
    if CountLabel(m) == CountLabel(n) {
      assert Dec(m) == CountLabel(m)[6..];
      assert Dec(n) == CountLabel(n)[6..];
      DecInjective(m, n);
    }
  }

  /** `@SP AM=M-1`: drops the top word and points A at it. */
  const CMP_POP: seq<Instr> := [ASym("SP"), C(ToAM, MMinusOne, NoJump)]

  /** `D=M A=A-1 D=M-D`: with A at y, computes x - y into D and points A at x. */
  const CMP_SUB: seq<Instr> := [C(ToD, M, NoJump), C(ToA, AMinusOne, NoJump), C(ToD, MMinusD, NoJump)]

  /** `@l1 D;j D=0 @l2 0;JMP`: jumps to `l1` when `j` holds of D, otherwise to `l2` with D = 0. */
  function CmpBranch(j: Jump, l1: string, l2: string): seq<Instr> {
    [ASym(l1), C(NoDest, D, j), C(ToD, Zero, NoJump), ASym(l2), C(NoDest, Zero, JMP)]
  }

  /** `(l1) D=-1 (l2)`: the true case sets D to -1; both labels meet before the store. */
  function CmpMeet(l1: string, l2: string): seq<Instr> {
    [Decl(l1), C(ToD, MinusOne, NoJump), Decl(l2)]
  }

  /** `@SP A=M-1 M=D`: stores D as the new top word. */
  const CMP_STORE: seq<Instr> := GET_X + [C(ToM, D, NoJump)]

  /** The eq/gt/lt fragment, jumping on `j` through the labels `l1` and `l2`. */
  function Compare(j: Jump, l1: string, l2: string): seq<Instr> {
    (CMP_POP + CMP_SUB) + (CmpBranch(j, l1, l2) + (CmpMeet(l1, l2) + CMP_STORE))
  }

  /** The fragment for an arithmetic-logical command; any other word panics. */
  function WriteArithmetic(command: string, count1: Draw, count2: Draw): (r: Result<seq<Instr>, Panic>)
    ensures r.Success? <==> command in HvmParser.ARITHMETIC_COMMANDS
    ensures r.Failure? ==> r.error == Explicit("Unknow arithmetic command")
  {
    if command == "add" then Success(ADD)
    else if command == "sub" then Success(SUB)
    else if command == "neg" then Success(NEG)
    else if command == "and" then Success(AND)
    else if command == "or" then Success(OR)
    else if command == "not" then Success(NOT)
    else if command == "eq" then Success(Compare(JEQ, CountLabel(count1), CountLabel(count2)))
    else if command == "gt" then Success(Compare(JGT, CountLabel(count1), CountLabel(count2)))
    else if command == "lt" then Success(Compare(JLT, CountLabel(count1), CountLabel(count2)))
    else Failure(Explicit("Unknow arithmetic command"))
  }

  // ---------------------------------------------------------------------------
  // The comparison fragment as loaded into ROM

  /** The ROM contents of `Compare`: the labels take no room. */
  function CompareRom(j: Jump, l1: string, l2: string): seq<Instr> {
    (CMP_POP + CMP_SUB) + (CmpBranch(j, l1, l2) + ([C(ToD, MinusOne, NoJump)] + CMP_STORE))
  }

  lemma CompareNoLabelParts(j: Jump, l1: string, l2: string)
    ensures NoLabels(CMP_POP + CMP_SUB) && NoLabels(CmpBranch(j, l1, l2)) && NoLabels(CMP_STORE)
    ensures |CMP_POP + CMP_SUB| == 5 && |CmpBranch(j, l1, l2)| == 5
  {
    NoLabelsAppend(CMP_POP, CMP_SUB);
    NoLabelsAppend(GET_X, [C(ToM, D, NoJump)]);
  }

  lemma CmpMeetRom(l1: string, l2: string)
    ensures Rom(CmpMeet(l1, l2)) == [C(ToD, MinusOne, NoJump)]
  {
    var last := [Decl(l2)];
    var tail := [C(ToD, MinusOne, NoJump), Decl(l2)];
    assert Rom(last) == [] by {
      assert last[1..] == [];
    }
    assert Rom(tail) == [C(ToD, MinusOne, NoJump)] by {
      assert tail[1..] == last;
    }
    assert CmpMeet(l1, l2)[1..] == tail;
  }

  lemma CompareRomIs(j: Jump, l1: string, l2: string)
    ensures Rom(Compare(j, l1, l2)) == CompareRom(j, l1, l2)
  {
    var head := CMP_POP + CMP_SUB;
    var br := CmpBranch(j, l1, l2);
    var meet := CmpMeet(l1, l2);
    CompareNoLabelParts(j, l1, l2);
    RomAppend(head, br + (meet + CMP_STORE));
    RomAppend(br, meet + CMP_STORE);
    RomAppend(meet, CMP_STORE);
    RomNoLabels(head);
    RomNoLabels(br);
    RomNoLabels(CMP_STORE);
    CmpMeetRom(l1, l2);
  }

  lemma CmpMeetBindings(l1: string, l2: string, addr: int)
    ensures BindAll(CmpMeet(l1, l2), addr, map[]) == map[l1 := addr][l2 := addr + 1]
  {
    var last := [Decl(l2)];
    var tail := [C(ToD, MinusOne, NoJump), Decl(l2)];
    var acc := map[l1 := addr];
    assert BindAll(last, addr + 1, acc) == acc[l2 := addr + 1] by {
      assert last[1..] == [];
    }
    assert BindAll(tail, addr, acc) == acc[l2 := addr + 1] by {
      assert tail[1..] == last;
    }
    assert CmpMeet(l1, l2)[1..] == tail;
  }

  /** The first pass binds `l1` to the line after the branch (D=-1) and `l2` to the store after it. */
  lemma CompareBindings(j: Jump, l1: string, l2: string, base: int)
    ensures Bindings(Compare(j, l1, l2), base) == map[l1 := base + 10][l2 := base + 11]
  {
    var head := CMP_POP + CMP_SUB;
    var br := CmpBranch(j, l1, l2);
    var meet := CmpMeet(l1, l2);
    CompareNoLabelParts(j, l1, l2);
    BindAppend(head, br + (meet + CMP_STORE), base, map[]);
    BindAppend(br, meet + CMP_STORE, base + 5, map[]);
    BindAppend(meet, CMP_STORE, base + 10, map[]);
    RomNoLabels(head);
    RomNoLabels(br);
    BindNoLabels(head, base, map[]);
    BindNoLabels(br, base + 5, map[]);
    CmpMeetBindings(l1, l2, base + 10);
    CmpMeetRom(l1, l2);
    BindNoLabels(CMP_STORE, base + 11, map[l1 := base + 10][l2 := base + 11]);
  }

  /** Where a placed comparison's labels point. */
  lemma CompareTargets(j: Jump, l1: string, l2: string, base: int, sym: Symbols)
    requires l1 != l2 && Placed(Compare(j, l1, l2), base, sym)
    ensures sym(l1) == base + 10 && sym(l2) == base + 11
  {
    CompareBindings(j, l1, l2, base);
    assert l1 in Bindings(Compare(j, l1, l2), base);
    assert l2 in Bindings(Compare(j, l1, l2), base);
  }

  // ---------------------------------------------------------------------------
  // Running the comparison

  lemma CmpPopEffect(s: State, sym: Symbols)
    requires StdSymbols(sym) && StackDepth(s, 0)
    ensures Exec(CMP_POP, s, sym) == Fell(State(Sp(s) - 1, s.d, s.ram[SP := Sp(s) - 1]))
  {
    ExecTwo(ASym("SP"), C(ToAM, MMinusOne, NoJump), s, s.(a := SP), sym);
  }

  lemma CmpSubEffect(s: State, sym: Symbols)
    requires 0 < s.a
    ensures Exec(CMP_SUB, s, sym) == Fell(s.(a := s.a - 1, d := Wrap(Mem(s, s.a - 1) - Mem(s, s.a))))
  {
    var s1 := s.(d := Mem(s, s.a));
    ExecThree(C(ToD, M, NoJump), C(ToA, AMinusOne, NoJump), C(ToD, MMinusD, NoJump), s, s1, s1.(a := s.a - 1), sym);
  }

  /** The first five lines pop y, point A at x and leave x - y in D. */
  lemma CmpDiffEffect(s: State, sym: Symbols)
    requires StdSymbols(sym) && StackDepth(s, 2)
    ensures var sp := Sp(s);
      Exec(CMP_POP + CMP_SUB, s, sym)
        == Fell(State(sp - 2, Wrap(Mem(s, sp - 2) - Mem(s, sp - 1)), s.ram[SP := sp - 1]))
  {
    var s1 := State(Sp(s) - 1, s.d, s.ram[SP := Sp(s) - 1]);
    CmpPopEffect(s, sym);
    CmpSubEffect(s1, sym);
    ExecSeq(CMP_POP, CMP_SUB, s, s1, sym);
  }

  /** The branch jumps to `l1` when `j` holds of D, and to `l2` with D cleared otherwise. */
  lemma CmpBranchEffect(j: Jump, l1: string, l2: string, s: State, sym: Symbols)
    ensures Exec(CmpBranch(j, l1, l2), s, sym)
      == if Taken(j, s.d) then Jumped(sym(l1), s.(a := sym(l1)))
         else Jumped(sym(l2), State(sym(l2), 0, s.ram))
  {
    var test := [ASym(l1), C(NoDest, D, j)];
    var other := [C(ToD, Zero, NoJump), ASym(l2), C(NoDest, Zero, JMP)];
    var s1 := s.(a := sym(l1));
    assert CmpBranch(j, l1, l2) == test + other;
    ExecTwo(ASym(l1), C(NoDest, D, j), s, s1, sym);
    if Taken(j, s.d) {
      ExecJumpOut(test, other, s, sym(l1), s1, sym);
    } else {
      ExecSeq(test, other, s, s1, sym);
      ExecThree(C(ToD, Zero, NoJump), ASym(l2), C(NoDest, Zero, JMP), s1, s1.(d := 0), State(sym(l2), 0, s.ram), sym);
    }
  }

  /** `CMP_STORE` writes D over the word below SP and leaves D as it was. */
  lemma CmpStoreEffect(s: State, sym: Symbols)
    requires StdSymbols(sym) && StackDepth(s, 0)
    ensures Exec(CMP_STORE, s, sym) == Fell(State(Sp(s) - 1, s.d, s.ram[Sp(s) - 1 := s.d]))
  {
    GetXEffect(s, sym);
    ExecSeq(GET_X, [C(ToM, D, NoJump)], s, s.(a := Sp(s) - 1), sym);
    ExecOne(C(ToM, D, NoJump), s.(a := Sp(s) - 1), sym);
  }

  /** The true case: D = -1, then the store. */
  lemma CmpTrueEffect(s: State, sym: Symbols)
    requires StdSymbols(sym) && StackDepth(s, 0)
    ensures Exec([C(ToD, MinusOne, NoJump)] + CMP_STORE, s, sym)
      == Fell(State(Sp(s) - 1, 65535, s.ram[Sp(s) - 1 := 65535]))
  {
    var s1 := s.(d := 65535);
    ExecOne(C(ToD, MinusOne, NoJump), s, sym);
    CmpStoreEffect(s1, sym);
    ExecSeq([C(ToD, MinusOne, NoJump)], CMP_STORE, s, s1, sym);
  }

  /** Up to its first jump, the comparison runs the five-line difference and then the branch. */
  lemma CompareJump(j: Jump, l1: string, l2: string, s: State, sym: Symbols)
    requires StdSymbols(sym) && StackDepth(s, 2)
    ensures var sp := Sp(s);
      var h := State(sp - 2, Wrap(Mem(s, sp - 2) - Mem(s, sp - 1)), s.ram[SP := sp - 1]);
      ExecFrom(CompareRom(j, l1, l2), 0, s, sym)
        == if Taken(j, h.d) then Jumped(sym(l1), h.(a := sym(l1)))
           else Jumped(sym(l2), State(sym(l2), 0, h.ram))
  {
    var sp := Sp(s);
    var h := State(sp - 2, Wrap(Mem(s, sp - 2) - Mem(s, sp - 1)), s.ram[SP := sp - 1]);
    var br := CmpBranch(j, l1, l2);
    var rest := [C(ToD, MinusOne, NoJump)] + CMP_STORE;
    CmpDiffEffect(s, sym);
    ExecSeq(CMP_POP + CMP_SUB, br + rest, s, h, sym);
    CmpBranchEffect(j, l1, l2, h, sym);
    match Exec(br, h, sym)
    case Jumped(t, h1) => ExecJumpOut(br, rest, h, t, h1, sym);
  }

  /** Resuming at ROM index 10 runs the true case; at index 11, the store alone. */
  lemma CompareResume(j: Jump, l1: string, l2: string, s: State, sym: Symbols)
    ensures ExecFrom(CompareRom(j, l1, l2), 10, s, sym) == Exec([C(ToD, MinusOne, NoJump)] + CMP_STORE, s, sym)
    ensures ExecFrom(CompareRom(j, l1, l2), 11, s, sym) == Exec(CMP_STORE, s, sym)
  {
    var head := CMP_POP + CMP_SUB;
    var br := CmpBranch(j, l1, l2);
    var rest := [C(ToD, MinusOne, NoJump)] + CMP_STORE;
    CompareNoLabelParts(j, l1, l2);
    ExecFromShift(head, br + rest, 5, s, sym);
    ExecFromShift(br, rest, 0, s, sym);
    ExecFromShift(head, br + rest, 6, s, sym);
    ExecFromShift(br, rest, 1, s, sym);
    ExecFromShift([C(ToD, MinusOne, NoJump)], CMP_STORE, 0, s, sym);
  }

  lemma CompareTaken(j: Jump, l1: string, l2: string, base: int, s: State, sym: Symbols, fuel: nat)
    requires StdSymbols(sym) && StackDepth(s, 2) && 0 <= base && fuel >= 1
    requires sym(l1) == base + 10
    requires Taken(j, Wrap(Mem(s, Sp(s) - 2) - Mem(s, Sp(s) - 1)))
    ensures var sp := Sp(s);
      RunRom(CompareRom(j, l1, l2), base, 0, s, sym, fuel)
        == Fell(State(sp - 2, 65535, s.ram[SP := sp - 1][sp - 2 := 65535]))
  {
    var sp := Sp(s);
    var r := CompareRom(j, l1, l2);
    var h := State(sym(l1), Wrap(Mem(s, sp - 2) - Mem(s, sp - 1)), s.ram[SP := sp - 1]);
    CompareNoLabelParts(j, l1, l2);
    CompareJump(j, l1, l2, s, sym);
    RunRomResume(r, base, 0, s, sym, fuel, sym(l1), h);
    CompareResume(j, l1, l2, h, sym);
    CmpTrueEffect(h, sym);
    RunRomFell(r, base, 10, h, sym, fuel - 1, State(sp - 2, 65535, h.ram[sp - 2 := 65535]));
  }

  lemma CompareNotTaken(j: Jump, l1: string, l2: string, base: int, s: State, sym: Symbols, fuel: nat)
    requires StdSymbols(sym) && StackDepth(s, 2) && 0 <= base && fuel >= 1
    requires sym(l2) == base + 11
    requires !Taken(j, Wrap(Mem(s, Sp(s) - 2) - Mem(s, Sp(s) - 1)))
    ensures var sp := Sp(s);
      RunRom(CompareRom(j, l1, l2), base, 0, s, sym, fuel)
        == Fell(State(sp - 2, 0, s.ram[SP := sp - 1][sp - 2 := 0]))
  {
    var sp := Sp(s);
    var r := CompareRom(j, l1, l2);
    var h := State(sym(l2), 0, s.ram[SP := sp - 1]);
    CompareNoLabelParts(j, l1, l2);
    CompareJump(j, l1, l2, s, sym);
    RunRomResume(r, base, 0, s, sym, fuel, sym(l2), h);
    CompareResume(j, l1, l2, h, sym);
    CmpStoreEffect(h, sym);
    RunRomFell(r, base, 11, h, sym, fuel - 1, State(sp - 2, 0, h.ram[sp - 2 := 0]));
  }

  /**
    A comparison loaded at `base` with two distinct labels pops y and x and
    pushes -1 (true) when `j` holds of the 16-bit difference x - y, and 0
    (false) otherwise; SP decreases by one.
   */
  lemma CompareEffect(j: Jump, l1: string, l2: string, base: int, s: State, sym: Symbols, fuel: nat)
    requires StdSymbols(sym) && StackDepth(s, 2) && 0 <= base && fuel >= 1
    requires l1 != l2 && Placed(Compare(j, l1, l2), base, sym)
    ensures var sp := Sp(s);
      var r: Word := if Taken(j, Wrap(Mem(s, sp - 2) - Mem(s, sp - 1))) then 65535 else 0;
      RunAt(Compare(j, l1, l2), base, s, sym, fuel) == Fell(State(sp - 2, r, s.ram[SP := sp - 1][sp - 2 := r]))
  {
    CompareTargets(j, l1, l2, base, sym);
    CompareRomIs(j, l1, l2);
    if Taken(j, Wrap(Mem(s, Sp(s) - 2) - Mem(s, Sp(s) - 1))) {
      CompareTaken(j, l1, l2, base, s, sym, fuel);
    } else {
      CompareNotTaken(j, l1, l2, base, s, sym, fuel);
    }
  }

  /**
    With equal draws both labels coincide and the later binding wins: a
    taken branch lands directly on the store with D still holding x - y, so
    the pushed word is the difference rather than -1.
   */
  lemma CompareSameLabels(j: Jump, l: string, base: int, s: State, sym: Symbols, fuel: nat)
    requires StdSymbols(sym) && StackDepth(s, 2) && 0 <= base && fuel >= 1
    requires Placed(Compare(j, l, l), base, sym)
    ensures var sp := Sp(s);
      var diff := Wrap(Mem(s, sp - 2) - Mem(s, sp - 1));
      var r: Word := if Taken(j, diff) then diff else 0;
      RunAt(Compare(j, l, l), base, s, sym, fuel) == Fell(State(sp - 2, r, s.ram[SP := sp - 1][sp - 2 := r]))
  {
    CompareBindings(j, l, l, base);
    assert l in Bindings(Compare(j, l, l), base);
    CompareRomIs(j, l, l);
    var sp := Sp(s);
    if Taken(j, Wrap(Mem(s, sp - 2) - Mem(s, sp - 1))) {
      CompareSameTaken(j, l, base, s, sym, fuel);
    } else {
      CompareNotTaken(j, l, l, base, s, sym, fuel);
    }
  }

  lemma CompareSameTaken(j: Jump, l: string, base: int, s: State, sym: Symbols, fuel: nat)
    requires StdSymbols(sym) && StackDepth(s, 2) && 0 <= base && fuel >= 1
    requires sym(l) == base + 11
    requires Taken(j, Wrap(Mem(s, Sp(s) - 2) - Mem(s, Sp(s) - 1)))
    ensures var sp := Sp(s);
      var diff := Wrap(Mem(s, sp - 2) - Mem(s, sp - 1));
      RunRom(CompareRom(j, l, l), base, 0, s, sym, fuel) == Fell(State(sp - 2, diff, s.ram[SP := sp - 1][sp - 2 := diff]))
  {
    var sp := Sp(s);
    var r := CompareRom(j, l, l);
    var h := State(sym(l), Wrap(Mem(s, sp - 2) - Mem(s, sp - 1)), s.ram[SP := sp - 1]);
    CompareNoLabelParts(j, l, l);
    CompareJump(j, l, l, s, sym);
    RunRomResume(r, base, 0, s, sym, fuel, sym(l), h);
    CompareResume(j, l, l, h, sym);
    CmpStoreEffect(h, sym);
    RunRomFell(r, base, 11, h, sym, fuel - 1, State(sp - 2, h.d, h.ram[sp - 2 := h.d]));
  }

  // ---------------------------------------------------------------------------
  // What each command means

  /** How many words a command pops: one for neg and not, two for the rest. */
  function Arity(command: string): nat {
    if command == "neg" || command == "not" then 1 else 2
  }

  /** The boolean encoding of the VM language: true is -1, false is 0. */
  function Bool(b: bool): Word {
    if b then 65535 else 0
  }

  /**
    The value the VM language pushes for `command` applied to x (below) and
    y (top), on 16-bit two's-complement words (The Elements of Computing
    Systems, chapter 7); unary commands ignore x.
   */
  function Reference(command: string, x: Word, y: Word): Word {
    if command == "add" then Wrap(x + y)
    else if command == "sub" then Wrap(x - y)
    else if command == "neg" then Wrap(0 - y as int)
    else if command == "eq" then Bool(x == y)
    else if command == "gt" then Bool(Signed(x) > Signed(y))
    else if command == "lt" then Bool(Signed(x) < Signed(y))
    else if command == "and" then And16(x, y)
    else if command == "or" then Or16(x, y)
    else Not16(y)
  }

  /** x - y leaves the signed 16-bit range, so its wrapped sign is wrong. */
  predicate Overflows(x: Word, y: Word) {
    !(-32768 <= Signed(x) - Signed(y) < 32768)
  }

  /**
    The stack after a command that popped `pops` words and pushed `v`: SP
    moved accordingly, the new top is `v`, and every cell other than SP and
    the freed slots above the new top kept its value.
   */
  predicate Replaced(s: State, t: State, pops: nat, v: Word) {
    && pops <= Sp(s)
    && Sp(t) == Sp(s) - pops + 1
    && Mem(t, Sp(s) - pops) == v
    && forall addr: Word | addr != SP && !(Sp(s) - pops <= addr < Sp(s)) :: Mem(t, addr) == Mem(s, addr)
  }

  /** The difference x - y read back as a signed number is the exact difference when it fits. */
  lemma SignedDiff(x: Word, y: Word)
    requires !Overflows(x, y)
    ensures Signed(Wrap(x - y)) == Signed(x) - Signed(y)
  {
  }

  lemma EqMeaning(x: Word, y: Word)
    ensures Taken(JEQ, Wrap(x - y)) <==> x == y
  {
  }

  lemma GtMeaning(x: Word, y: Word)
    requires !Overflows(x, y)
    ensures Taken(JGT, Wrap(x - y)) <==> Signed(x) > Signed(y)
  {
    SignedDiff(x, y);
  }

  lemma LtMeaning(x: Word, y: Word)
    requires !Overflows(x, y)
    ensures Taken(JLT, Wrap(x - y)) <==> Signed(x) < Signed(y)
  {
    SignedDiff(x, y);
  }

  /**
    gt and lt decide on the sign of the wrapped difference: 32767 > -1, but
    32767 - (-1) wraps to -32768, so the fragment for gt answers false.
   */
  lemma GtOverflow()
    ensures Overflows(32767, 65535)
    ensures Reference("gt", 32767, 65535) == 65535
    ensures !Taken(JGT, Wrap(32767 - 65535))
  {
  }

  /** The straight-line fragments declare no labels. */
  lemma StraightNoLabels()
    ensures NoLabels(ADD) && NoLabels(SUB) && NoLabels(NEG)
    ensures NoLabels(AND) && NoLabels(OR) && NoLabels(NOT)
  {
  }

  /** The value a comparison pushes, as the VM language defines it or, on overflow, its negation. */
  function Pushed(command: string, x: Word, y: Word): Word {
    if (command == "gt" || command == "lt") && Overflows(x, y) then Not16(Reference(command, x, y))
    else Reference(command, x, y)
  }

  lemma AddRuns(base: int, s: State, sym: Symbols, fuel: nat)
    requires StdSymbols(sym) && StackDepth(s, 2)
    ensures var run := RunAt(ADD, base, s, sym, fuel);
      run.Fell? && Replaced(s, run.s, 2, Reference("add", Mem(s, Sp(s) - 2), Mem(s, Sp(s) - 1)))
  {
    var sp := Sp(s);
    var r := Wrap(Mem(s, sp - 2) + Mem(s, sp - 1));
    AddEffect(s, sym);
    StraightNoLabels();
    Straight(ADD, base, s, sym, fuel, State(sp - 2, r, s.ram[SP := sp - 1][sp - 2 := r]));
  }

  lemma SubRuns(base: int, s: State, sym: Symbols, fuel: nat)
    requires StdSymbols(sym) && StackDepth(s, 2)
    ensures var run := RunAt(SUB, base, s, sym, fuel);
      run.Fell? && Replaced(s, run.s, 2, Reference("sub", Mem(s, Sp(s) - 2), Mem(s, Sp(s) - 1)))
  {
    var sp := Sp(s);
    var r := Wrap(Mem(s, sp - 2) - Mem(s, sp - 1));
    SubEffect(s, sym);
    StraightNoLabels();
    Straight(SUB, base, s, sym, fuel, State(SP, r, s.ram[SP := sp - 1][sp - 2 := r]));
  }

  lemma NegRuns(base: int, s: State, sym: Symbols, fuel: nat)
    requires StdSymbols(sym) && StackDepth(s, 1)
    ensures var run := RunAt(NEG, base, s, sym, fuel);
      run.Fell? && Replaced(s, run.s, 1, Reference("neg", Mem(s, Sp(s) - 2), Mem(s, Sp(s) - 1)))
  {
    var sp := Sp(s);
    NegEffect(s, sym);
    StraightNoLabels();
    Straight(NEG, base, s, sym, fuel, State(sp - 1, s.d, s.ram[sp - 1 := Wrap(0 - Mem(s, sp - 1))]));
  }

  lemma NotRuns(base: int, s: State, sym: Symbols, fuel: nat)
    requires StdSymbols(sym) && StackDepth(s, 1)
    ensures var run := RunAt(NOT, base, s, sym, fuel);
      run.Fell? && Replaced(s, run.s, 1, Reference("not", Mem(s, Sp(s) - 2), Mem(s, Sp(s) - 1)))
  {
    var sp := Sp(s);
    NotEffect(s, sym);
    StraightNoLabels();
    Straight(NOT, base, s, sym, fuel, State(sp - 1, s.d, s.ram[sp - 1 := Not16(Mem(s, sp - 1))]));
  }

  lemma AndRuns(base: int, s: State, sym: Symbols, fuel: nat)
    requires StdSymbols(sym) && StackDepth(s, 2)
    ensures var run := RunAt(AND, base, s, sym, fuel);
      run.Fell? && Replaced(s, run.s, 2, Reference("and", Mem(s, Sp(s) - 2), Mem(s, Sp(s) - 1)))
  {
    var sp := Sp(s);
    var r := And16(Mem(s, sp - 1), Mem(s, sp - 2));
    AndEffect(s, sym);
    StraightNoLabels();
    assert r == Reference("and", Mem(s, sp - 2), Mem(s, sp - 1)) by {
      BitAndComm(Mem(s, sp - 1), Mem(s, sp - 2));
    }
    Straight(AND, base, s, sym, fuel, State(sp - 2, r, s.ram[SP := sp - 1][sp - 2 := r]));
  }

  /** Or-ing with the operands the other way round is the reference `or`. */
  lemma OrSwapped(x: Word, y: Word)
    ensures Or16(y, x) == Reference("or", x, y)
  {
    BitAndComm(Not16(y), Not16(x));
  }

  lemma OrRuns(base: int, s: State, sym: Symbols, fuel: nat)
    requires StdSymbols(sym) && StackDepth(s, 2)
    ensures var run := RunAt(OR, base, s, sym, fuel);
      run.Fell? && Replaced(s, run.s, 2, Reference("or", Mem(s, Sp(s) - 2), Mem(s, Sp(s) - 1)))
  {
    var sp := Sp(s);
    var y := Mem(s, sp - 1);
    var r := Or16(y, Mem(s, sp - 2));
    var t := State(sp - 2, y, s.ram[sp - 1 := 0][SP := sp - 1][sp - 2 := r]);
    OrEffect(s, sym);
    StraightNoLabels();
    Straight(OR, base, s, sym, fuel, t);
    OrSwapped(Mem(s, sp - 2), y);
    ClearedTopReplaced(s, y, r);
  }

  /** Clearing the top cell, then storing `r` one below with SP lowered by one, replaces two cells by `r`. */
  lemma ClearedTopReplaced(s: State, d: Word, r: Word)
    requires StackDepth(s, 2)
    ensures var sp := Sp(s);
      Replaced(s, State(sp - 2, d, s.ram[sp - 1 := 0][SP := sp - 1][sp - 2 := r]), 2, r)
  {
  }

  /** On overflow the sign of the wrapped difference is the opposite of the true order. */
  lemma OverflowFlips(x: Word, y: Word)
    requires Overflows(x, y)
    ensures Taken(JGT, Wrap(x - y)) <==> !(Signed(x) > Signed(y))
    ensures Taken(JLT, Wrap(x - y)) <==> !(Signed(x) < Signed(y))
  {
  }

  /** The jump each comparison tests, and what it pushes. */
  lemma CompareMeaning(command: string, j: Jump, x: Word, y: Word)
    requires (command, j) in {("eq", JEQ), ("gt", JGT), ("lt", JLT)}
    ensures Bool(Taken(j, Wrap(x - y))) == Pushed(command, x, y)
  {
    if command == "eq" {
      EqMeaning(x, y);
    } else if Overflows(x, y) {
      OverflowFlips(x, y);
    } else if command == "gt" {
      GtMeaning(x, y);
    } else {
      LtMeaning(x, y);
    }
  }

  lemma CompareRuns(command: string, j: Jump, l1: string, l2: string, base: int, s: State, sym: Symbols, fuel: nat)
    requires (command, j) in {("eq", JEQ), ("gt", JGT), ("lt", JLT)}
    requires StdSymbols(sym) && StackDepth(s, 2) && 0 <= base && fuel >= 1
    requires l1 != l2 && Placed(Compare(j, l1, l2), base, sym)
    ensures var run := RunAt(Compare(j, l1, l2), base, s, sym, fuel);
      run.Fell? && Replaced(s, run.s, 2, Pushed(command, Mem(s, Sp(s) - 2), Mem(s, Sp(s) - 1)))
  {
    CompareEffect(j, l1, l2, base, s, sym, fuel);
    CompareMeaning(command, j, Mem(s, Sp(s) - 2), Mem(s, Sp(s) - 1));
  }

  /**
    Every arithmetic-logical command, translated with two different draws
    and loaded anywhere, runs to its end and replaces its `Arity` operands
    with the value the VM language defines — except that gt and lt give the
    opposite answer when x - y overflows.
   */
  lemma ArithmeticEffect(command: string, count1: Draw, count2: Draw, base: int, s: State, sym: Symbols, fuel: nat)
    requires command in HvmParser.ARITHMETIC_COMMANDS && count1 != count2
    requires StdSymbols(sym) && StackDepth(s, Arity(command)) && 0 <= base && fuel >= 1
    requires Placed(WriteArithmetic(command, count1, count2).value, base, sym)
    ensures var run := RunAt(WriteArithmetic(command, count1, count2).value, base, s, sym, fuel);
      run.Fell? && Replaced(s, run.s, Arity(command), Pushed(command, Mem(s, Sp(s) - 2), Mem(s, Sp(s) - 1)))
  {
    var l1, l2 := CountLabel(count1), CountLabel(count2);
    CountLabelInjective(count1, count2);
    if command == "add" {
      AddRuns(base, s, sym, fuel);
    } else if command == "sub" {
      SubRuns(base, s, sym, fuel);
    } else if command == "neg" {
      NegRuns(base, s, sym, fuel);
    } else if command == "and" {
      AndRuns(base, s, sym, fuel);
    } else if command == "or" {
      OrRuns(base, s, sym, fuel);
    } else if command == "not" {
      NotRuns(base, s, sym, fuel);
    } else if command == "eq" {
      CompareRuns(command, JEQ, l1, l2, base, s, sym, fuel);
    } else if command == "gt" {
      CompareRuns(command, JGT, l1, l2, base, s, sym, fuel);
    } else {
      CompareRuns(command, JLT, l1, l2, base, s, sym, fuel);
    }
  }
}
