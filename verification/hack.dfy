/**
  The Hack computer of "The Elements of Computing Systems" as the target of
  the VM translator: its assembly instructions (chapter 4, section 4.2.3
  for the C-instruction fields) and a small-step semantics for straight-line
  fragments of them.

  A fragment is a `seq<Instr>` that mirrors the emitted text one line per
  instruction (comment and blank lines are not instructions). Running a
  fragment either falls off its end or stops at a taken jump, reporting the
  target address; `RunRom` and `RunAt` additionally follow jumps whose
  target lies inside the fragment itself, given the ROM address the
  fragment is loaded at.

  Registers and memory cells hold 16-bit words, kept as integers in
  [0, 65536); arithmetic wraps modulo 2^16 and jump conditions read the
  word as a two's-complement number. Symbols of `@symbol` instructions are
  resolved by a parameter `sym`, which stands for the assembler's symbol
  table.
 */
module Hack {
  import opened Wrappers

  const Modulus: int := 65536

  type Word = x: int | 0 <= x < 65536

  /**
    Reduction modulo 2^16 of a sum or difference of two words, the only
    arithmetic the Hack ALU has.
   */
  function Wrap(x: int): Word
    requires -Modulus <= x < 2 * Modulus
  {
    if x < 0 then x + Modulus else if x < Modulus then x else x - Modulus
  }

  /** `Wrap` is reduction modulo 2^16. */
  lemma WrapIsModulo(x: int)
    requires -Modulus <= x < 2 * Modulus
    ensures Wrap(x) == x % Modulus
  {
  }

  /** The two's-complement reading of a word. */
  function Signed(w: Word): (v: int)
    ensures -32768 <= v < 32768
  {
    if w < 32768 then w else w - Modulus
  }

  function Not16(x: Word): Word {
    65535 - x
  }

  /** Bitwise conjunction of two naturals, one binary digit at a time. */
  function BitAnd(x: nat, y: nat): (r: nat)
    ensures r <= x && r <= y
  {
    if x == 0 || y == 0 then 0
    else 2 * BitAnd(x / 2, y / 2) + (if x % 2 == 1 && y % 2 == 1 then 1 else 0)
  }

  function And16(x: Word, y: Word): Word {
    BitAnd(x, y)
  }

  /** Bitwise conjunction does not depend on the order of its operands. */
  lemma {:induction false} BitAndComm(x: nat, y: nat)
    ensures BitAnd(x, y) == BitAnd(y, x)
  {
    if x != 0 && y != 0 {
      BitAndComm(x / 2, y / 2);
    }
  }

  /** Bitwise disjunction, as the complement of the conjunction of the complements. */
  function Or16(x: Word, y: Word): Word {
    Not16(And16(Not16(x), Not16(y)))
  }

  // ---------------------------------------------------------------------------
  // Instructions

  /** The 28 computations of the Hack ALU, named after their mnemonics. */
  datatype Comp =
    | Zero | One | MinusOne | D | A | NotD | NotA | NegD | NegA
    | DPlusOne | APlusOne | DMinusOne | AMinusOne | DPlusA | DMinusA | AMinusD | DAndA | DOrA
    | M | NotM | NegM | MPlusOne | MMinusOne | DPlusM | DMinusM | MMinusD | DAndM | DOrM

  /** The mnemonic of a computation, as written in assembly text. */
  function CompText(c: Comp): string {
    match c
    case Zero => "0"
    case One => "1"
    case MinusOne => "-1"
    case D => "D"
    case A => "A"
    case NotD => "!D"
    case NotA => "!A"
    case NegD => "-D"
    case NegA => "-A"
    case DPlusOne => "D+1"
    case APlusOne => "A+1"
    case DMinusOne => "D-1"
    case AMinusOne => "A-1"
    case DPlusA => "D+A"
    case DMinusA => "D-A"
    case AMinusD => "A-D"
    case DAndA => "D&A"
    case DOrA => "D|A"
    case M => "M"
    case NotM => "!M"
    case NegM => "-M"
    case MPlusOne => "M+1"
    case MMinusOne => "M-1"
    case DPlusM => "D+M"
    case DMinusM => "D-M"
    case MMinusD => "M-D"
    case DAndM => "D&M"
    case DOrM => "D|M"
  }

  /** The ALU: the value a computation produces from A, D and M = RAM[A]. */
  function Eval(c: Comp, a: Word, d: Word, m: Word): Word {
    match c
    case Zero => 0
    case One => 1
    case MinusOne => Wrap(-1)
    case D => d
    case A => a
    case NotD => Not16(d)
    case NotA => Not16(a)
    case NegD => Wrap(0 - d as int)
    case NegA => Wrap(0 - a as int)
    case DPlusOne => Wrap(d + 1)
    case APlusOne => Wrap(a + 1)
    case DMinusOne => Wrap(d - 1)
    case AMinusOne => Wrap(a - 1)
    case DPlusA => Wrap(d + a)
    case DMinusA => Wrap(d - a)
    case AMinusD => Wrap(a - d)
    case DAndA => And16(d, a)
    case DOrA => Or16(d, a)
    case M => m
    case NotM => Not16(m)
    case NegM => Wrap(0 - m as int)
    case MPlusOne => Wrap(m + 1)
    case MMinusOne => Wrap(m - 1)
    case DPlusM => Wrap(d + m)
    case DMinusM => Wrap(d - m)
    case MMinusD => Wrap(m - d)
    case DAndM => And16(d, m)
    case DOrM => Or16(d, m)
  }

  /** Which of A, D and RAM[A] receive the computed value. */
  datatype Dest = Dest(a: bool, d: bool, m: bool)

  const NoDest := Dest(false, false, false)
  const ToA := Dest(true, false, false)
  const ToD := Dest(false, true, false)
  const ToM := Dest(false, false, true)
  const ToAM := Dest(true, false, true)

  /** The dest field as written before '=' (none when nothing is stored). */
  function DestText(dst: Dest): Option<string> {
    match dst
    case Dest(false, false, false) => None
    case Dest(false, false, true) => Some("M")
    case Dest(false, true, false) => Some("D")
    case Dest(false, true, true) => Some("MD")
    case Dest(true, false, false) => Some("A")
    case Dest(true, false, true) => Some("AM")
    case Dest(true, true, false) => Some("AD")
    case Dest(true, true, true) => Some("AMD")
  }

  datatype Jump = NoJump | JGT | JEQ | JGE | JLT | JNE | JLE | JMP

  /** The jump field as written after ';' (none for no jump). */
  function JumpText(j: Jump): Option<string> {
    match j
    case NoJump => None
    case JGT => Some("JGT")
    case JEQ => Some("JEQ")
    case JGE => Some("JGE")
    case JLT => Some("JLT")
    case JNE => Some("JNE")
    case JLE => Some("JLE")
    case JMP => Some("JMP")
  }

  /** Whether a jump is taken, given the computed value read as a signed number. */
  predicate Taken(j: Jump, v: Word) {
    match j
    case NoJump => false
    case JGT => Signed(v) > 0
    case JEQ => Signed(v) == 0
    case JGE => Signed(v) >= 0
    case JLT => Signed(v) < 0
    case JNE => Signed(v) != 0
    case JLE => Signed(v) <= 0
    case JMP => true
  }

  /** One line of Hack assembly: `@number`, `@symbol`, `dest=comp;jump` or a label declaration `(label)`. */
  datatype Instr =
    | AConst(value: nat)
    | ASym(symbol: string)
    | C(dest: Dest, comp: Comp, jump: Jump)
    | Decl(name: string)

  // ---------------------------------------------------------------------------
  // Machine state and execution

  /** The predefined RAM addresses of the Hack VM mapping (chapter 7, section 7.3). */
  const SP: Word := 0
  const LCL: Word := 1
  const ARG: Word := 2
  const THIS: Word := 3
  const THAT: Word := 4
  const R13: Word := 13
  const R14: Word := 14

  /** A-register, D-register and data memory; absent cells read as 0. */
  datatype State = State(a: Word, d: Word, ram: map<Word, Word>)

  function Mem(s: State, addr: Word): Word {
    if addr in s.ram then s.ram[addr] else 0
  }

  /** Resolution of `@symbol`: the assembler's symbol table, as a function. */
  type Symbols = string -> Word

  /** The predefined symbols the VM translator's output relies on. */
  predicate StdSymbols(sym: Symbols) {
    && sym("SP") == SP && sym("LCL") == LCL && sym("ARG") == ARG
    && sym("THIS") == THIS && sym("THAT") == THAT
    && sym("R13") == R13 && sym("R14") == R14
  }

  /** How a fragment ends: by falling off its end, or at a taken jump to `target`. */
  datatype Run = Fell(s: State) | Jumped(target: Word, s: State)

  /** A C-instruction: compute, store into the destinations, then test the jump on the computed value. */
  function Compute(dst: Dest, comp: Comp, jump: Jump, s: State): Run {
    var v := Eval(comp, s.a, s.d, Mem(s, s.a));
    var s' := State(if dst.a then v else s.a,
                    if dst.d then v else s.d,
                    if dst.m then s.ram[s.a := v] else s.ram);
    if Taken(jump, v) then Jumped(s.a, s') else Fell(s')
  }

  function Step(i: Instr, s: State, sym: Symbols): Run {
    match i
    case AConst(n) => Fell(s.(a := n % Modulus))
    case ASym(x) => Fell(s.(a := sym(x)))
    case Decl(_) => Fell(s)
    case C(dst, comp, jump) => Compute(dst, comp, jump, s)
  }

  /** Executes `p` from index `k` until its end or the first taken jump. */
  function ExecFrom(p: seq<Instr>, k: nat, s: State, sym: Symbols): Run
    requires k <= |p|
    decreases |p| - k
  {
    if k == |p| then Fell(s)
    else match Step(p[k], s, sym)
      case Fell(s1) => ExecFrom(p, k + 1, s1, sym)
      case Jumped(t, s1) => Jumped(t, s1)
  }

  /** One instruction of a run that continues. */
  lemma Next(p: seq<Instr>, k: nat, s: State, s1: State, sym: Symbols)
    requires k < |p| && Step(p[k], s, sym) == Fell(s1)
    ensures ExecFrom(p, k, s, sym) == ExecFrom(p, k + 1, s1, sym)
  {
  }

  /** The end of a run. */
  lemma Done(p: seq<Instr>, s: State, sym: Symbols)
    ensures ExecFrom(p, |p|, s, sym) == Fell(s)
  {
  }

  function Exec(p: seq<Instr>, s: State, sym: Symbols): Run {
    ExecFrom(p, 0, s, sym)
  }

  /** Continues with `q` after a run that fell off its end. */
  function Then(r: Run, q: seq<Instr>, sym: Symbols): Run {
    match r
    case Fell(s) => Exec(q, s, sym)
    case Jumped(_, _) => r
  }

  lemma {:induction false} ExecFromShift(p: seq<Instr>, q: seq<Instr>, j: nat, s: State, sym: Symbols)
    requires j <= |q|
    ensures ExecFrom(p + q, |p| + j, s, sym) == ExecFrom(q, j, s, sym)
    decreases |q| - j
  {
    if j < |q| {
      assert (p + q)[|p| + j] == q[j];
      match Step(q[j], s, sym)
      case Fell(s1) => ExecFromShift(p, q, j + 1, s1, sym);
      case Jumped(_, _) =>
    }
  }

  lemma {:induction false} ExecFromAppend(p: seq<Instr>, q: seq<Instr>, k: nat, s: State, sym: Symbols)
    requires k <= |p|
    ensures ExecFrom(p + q, k, s, sym) == Then(ExecFrom(p, k, s, sym), q, sym)
    decreases |p| - k
  {
    if k == |p| {
      ExecFromShift(p, q, 0, s, sym);
    } else {
      assert (p + q)[k] == p[k];
      match Step(p[k], s, sym)
      case Fell(s1) => ExecFromAppend(p, q, k + 1, s1, sym);
      case Jumped(_, _) =>
    }
  }

  /** Running two fragments back to back runs the second from where the first fell off. */
  lemma ExecAppend(p: seq<Instr>, q: seq<Instr>, s: State, sym: Symbols)
    ensures Exec(p + q, s, sym) == Then(Exec(p, s, sym), q, sym)
  {
    ExecFromAppend(p, q, 0, s, sym);
  }

  /** `ExecAppend` in the form used to chain fragment lemmas. */
  lemma ExecSeq(p: seq<Instr>, q: seq<Instr>, s: State, s1: State, sym: Symbols)
    requires Exec(p, s, sym) == Fell(s1)
    ensures Exec(p + q, s, sym) == Exec(q, s1, sym)
  {
    ExecAppend(p, q, s, sym);
  }

  /** A taken jump ends a run: whatever follows it is not executed. */
  lemma ExecJumpOut(p: seq<Instr>, q: seq<Instr>, s: State, t: Word, s1: State, sym: Symbols)
    requires Exec(p, s, sym) == Jumped(t, s1)
    ensures Exec(p + q, s, sym) == Jumped(t, s1)
  {
    ExecAppend(p, q, s, sym);
  }

  lemma ExecOne(i: Instr, s: State, sym: Symbols)
    ensures Exec([i], s, sym) == Step(i, s, sym)
  {
    match Step(i, s, sym)
    case Fell(s1) => assert ExecFrom([i], 1, s1, sym) == Fell(s1);
    case Jumped(_, _) =>
  }

  lemma ExecTwo(i: Instr, j: Instr, s: State, s1: State, sym: Symbols)
    requires Step(i, s, sym) == Fell(s1)
    ensures Exec([i, j], s, sym) == Step(j, s1, sym)
  {
    assert ExecFrom([i, j], 0, s, sym) == ExecFrom([i, j], 1, s1, sym);
    match Step(j, s1, sym)
    case Fell(s2) => assert ExecFrom([i, j], 2, s2, sym) == Fell(s2);
    case Jumped(_, _) =>
  }

  lemma ExecThree(i: Instr, j: Instr, k: Instr, s: State, s1: State, s2: State, sym: Symbols)
    requires Step(i, s, sym) == Fell(s1) && Step(j, s1, sym) == Fell(s2)
    ensures Exec([i, j, k], s, sym) == Step(k, s2, sym)
  {
    assert ExecFrom([i, j, k], 0, s, sym) == ExecFrom([i, j, k], 1, s1, sym);
    assert ExecFrom([i, j, k], 1, s1, sym) == ExecFrom([i, j, k], 2, s2, sym);
    match Step(k, s2, sym)
    case Fell(s3) => assert ExecFrom([i, j, k], 3, s3, sym) == Fell(s3);
    case Jumped(_, _) =>
  }

  // ---------------------------------------------------------------------------
  // Labels, ROM addresses and jumps inside a fragment

  /** The fragment as loaded into ROM: labels occupy no address. */
  function Rom(p: seq<Instr>): (r: seq<Instr>)
    ensures |r| <= |p|
    ensures forall i | 0 <= i < |r| :: !r[i].Decl?
  {
    if |p| == 0 then [] else (if p[0].Decl? then [] else [p[0]]) + Rom(p[1..])
  }

  lemma {:induction false} RomAppend(p: seq<Instr>, q: seq<Instr>)
    ensures Rom(p + q) == Rom(p) + Rom(q)
  {
    if |p| > 0 {
      assert (p + q)[1..] == p[1..] + q;
      RomAppend(p[1..], q);
    } else {
      assert p + q == q;
    }
  }

  lemma {:induction false} RomNoLabels(p: seq<Instr>)
    requires NoLabels(p)
    ensures Rom(p) == p
  {
    if |p| > 0 {
      RomNoLabels(p[1..]);
    }
  }

  /** No line of the fragment is a label declaration. */
  predicate NoLabels(p: seq<Instr>) {
    forall i | 0 <= i < |p| :: !p[i].Decl?
  }

  /**
    The assembler's first pass over a fragment whose first instruction is
    loaded at ROM address `addr`: each label is bound to the address of the
    next instruction, and a label defined twice keeps its later address.
   */
  function BindAll(p: seq<Instr>, addr: int, acc: map<string, int>): map<string, int> {
    if |p| == 0 then acc
    else if p[0].Decl? then BindAll(p[1..], addr, acc[p[0].name := addr])
    else BindAll(p[1..], addr + 1, acc)
  }

  function Bindings(p: seq<Instr>, base: int): map<string, int> {
    BindAll(p, base, map[])
  }

  /** `sym` agrees with the addresses the fragment's own labels receive. */
  predicate Placed(p: seq<Instr>, base: int, sym: Symbols) {
    forall l | l in Bindings(p, base) :: sym(l) == Bindings(p, base)[l]
  }

  /** The first pass over two fragments continues where the first one stops. */
  lemma {:induction false} BindAppend(p: seq<Instr>, q: seq<Instr>, addr: int, acc: map<string, int>)
    ensures BindAll(p + q, addr, acc) == BindAll(q, addr + |Rom(p)|, BindAll(p, addr, acc))
  {
    if |p| == 0 {
      assert p + q == q;
    } else {
      assert (p + q)[1..] == p[1..] + q;
      if p[0].Decl? {
        BindAppend(p[1..], q, addr, acc[p[0].name := addr]);
      } else {
        BindAppend(p[1..], q, addr + 1, acc);
      }
    }
  }

  /** A fragment without labels binds nothing. */
  lemma {:induction false} BindNoLabels(p: seq<Instr>, addr: int, acc: map<string, int>)
    requires NoLabels(p)
    ensures BindAll(p, addr, acc) == acc
  {
    if |p| > 0 {
      BindNoLabels(p[1..], addr + 1, acc);
    }
  }

  /**
    Runs ROM contents `r` loaded at `base` from index `k`: a taken jump whose
    target lies inside `r` resumes there, at most `fuel` times; any other
    jump ends the run.
   */
  function RunRom(r: seq<Instr>, base: int, k: nat, s: State, sym: Symbols, fuel: nat): Run
    requires k <= |r|
    decreases fuel
  {
    match ExecFrom(r, k, s, sym)
    case Fell(s1) => Fell(s1)
    case Jumped(t, s1) =>
      if fuel > 0 && base <= t < base + |r| then RunRom(r, base, t - base, s1, sym, fuel - 1)
      else Jumped(t, s1)
  }

  function RunAt(p: seq<Instr>, base: int, s: State, sym: Symbols, fuel: nat): Run {
    RunRom(Rom(p), base, 0, s, sym, fuel)
  }

  /** A run that falls off the end of the ROM ends there. */
  lemma RunRomFell(r: seq<Instr>, base: int, k: nat, s: State, sym: Symbols, fuel: nat, s1: State)
    requires k <= |r| && ExecFrom(r, k, s, sym) == Fell(s1)
    ensures RunRom(r, base, k, s, sym, fuel) == Fell(s1)
  {
  }

  /** A jump into the ROM itself resumes the run at the target, using one unit of fuel. */
  lemma RunRomResume(r: seq<Instr>, base: int, k: nat, s: State, sym: Symbols, fuel: nat, t: Word, s1: State)
    requires k <= |r| && ExecFrom(r, k, s, sym) == Jumped(t, s1)
    requires fuel > 0 && base <= t < base + |r|
    ensures RunRom(r, base, k, s, sym, fuel) == RunRom(r, base, t - base, s1, sym, fuel - 1)
  {
  }

  /** Two fragments without labels concatenate to one without labels. */
  lemma NoLabelsAppend(p: seq<Instr>, q: seq<Instr>)
    requires NoLabels(p) && NoLabels(q)
    ensures NoLabels(p + q)
  {
    forall i | 0 <= i < |p + q| ensures !(p + q)[i].Decl? {
      if i >= |p| {
        assert (p + q)[i] == q[i - |p|];
      }
    }
  }

  /** A fragment without labels that falls off its end runs the same way from any load address. */
  lemma Straight(p: seq<Instr>, base: int, s: State, sym: Symbols, fuel: nat, s1: State)
    requires NoLabels(p) && Exec(p, s, sym) == Fell(s1)
    ensures RunAt(p, base, s, sym, fuel) == Fell(s1)
  {
    RomNoLabels(p);
    RunRomFell(p, base, 0, s, sym, fuel, s1);
  }

  /** `n` copies of `block`, one after another. */
  function Repeat(block: seq<Instr>, n: nat): (r: seq<Instr>)
    ensures |r| == n * |block|
  {
    if n == 0 then [] else block + Repeat(block, n - 1)
  }

  /** `A=A+1` repeated `n` times advances A by `n`, modulo 2^16. */
  lemma {:induction false} RepeatIncA(n: nat, s: State, sym: Symbols)
    ensures Exec(Repeat([C(ToA, APlusOne, NoJump)], n), s, sym) == Fell(s.(a := (s.a + n) % Modulus))
  {
    if n > 0 {
      var inc := C(ToA, APlusOne, NoJump);
      var s1 := s.(a := Wrap(s.a + 1));
      ExecOne(inc, s, sym);
      ExecSeq([inc], Repeat([inc], n - 1), s, s1, sym);
      RepeatIncA(n - 1, s1, sym);
      WrapIsModulo(s.a + 1);
    }
  }

  // ---------------------------------------------------------------------------
  // Which fragments are Hack machine code

  /** An A-instruction is a 0 followed by 15 value bits, so `@n` needs n below 2^15. */
  const A_LIMIT: nat := 32768

  /** Every `@n` of `p` fits the 15 value bits of an A-instruction. */
  predicate Encodable(p: seq<Instr>) {
    forall i | 0 <= i < |p| :: p[i].AConst? ==> p[i].value < A_LIMIT
  }

  lemma EncodableAppend(p: seq<Instr>, q: seq<Instr>)
    ensures Encodable(p + q) <==> Encodable(p) && Encodable(q)
  {
    if Encodable(p) && Encodable(q) {
      forall i | 0 <= i < |p + q| && (p + q)[i].AConst? ensures (p + q)[i].value < A_LIMIT {
        if i >= |p| {
          assert (p + q)[i] == q[i - |p|];
        }
      }
    }
    if Encodable(p + q) {
      forall i | 0 <= i < |p| && p[i].AConst? ensures p[i].value < A_LIMIT {
        assert (p + q)[i] == p[i];
      }
      forall i | 0 <= i < |q| && q[i].AConst? ensures q[i].value < A_LIMIT {
        assert (p + q)[|p| + i] == q[i];
      }
    }
  }

  /** An instruction other than `@n` always fits; `@n` fits when n does. */
  predicate Fits(i: Instr) {
    !i.AConst? || i.value < A_LIMIT
  }

  /** Encodability of a short literal fragment, instruction by instruction. */
  lemma EncodableFive(a: Instr, b: Instr, c: Instr, d: Instr, e: Instr)
    ensures Encodable([a]) <==> Fits(a)
    ensures Encodable([a, b]) <==> Fits(a) && Fits(b)
    ensures Encodable([a, b, c]) <==> Fits(a) && Fits(b) && Fits(c)
    ensures Encodable([a, b, c, d]) <==> Fits(a) && Fits(b) && Fits(c) && Fits(d)
    ensures Encodable([a, b, c, d, e]) <==> Fits(a) && Fits(b) && Fits(c) && Fits(d) && Fits(e)
  {
    var p := [a, b, c, d, e];
    assert p[0] == a && p[1] == b && p[2] == c && p[3] == d && p[4] == e;
    assert [a, b, c, d][0] == a && [a, b, c, d][1] == b && [a, b, c, d][2] == c && [a, b, c, d][3] == d;
    assert [a, b, c][0] == a && [a, b, c][1] == b && [a, b, c][2] == c;
    assert [a, b][0] == a && [a, b][1] == b;
    assert [a][0] == a;
  }

  lemma {:induction false} RepeatEncodable(block: seq<Instr>, n: nat)
    requires Encodable(block)
    ensures Encodable(Repeat(block, n))
  {
    if n > 0 {
      RepeatEncodable(block, n - 1);
      EncodableAppend(block, Repeat(block, n - 1));
    }
  }
}
