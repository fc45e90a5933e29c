/**
  `assemble` of `assembler/src/assembler.rs`, without the files: a first
  pass binds every label to the ROM address of the instruction after it,
  then a second pass turns each A- and C-instruction into a line of binary,
  allocating RAM addresses to symbols it has not seen.

  An A-operand with a letter in it is a symbol; any other operand must parse
  as a `u16` or the assembler panics. The line of an A-instruction is '0'
  followed by the value in at least fifteen binary digits, so a value of
  32768 or more gives a seventeen-character line. A C-instruction line is
  "111" followed by the comp, dest and jump bits, in that order.
 */
module AsmAssembler {
  import opened Wrappers
  import opened Text
  import opened Hack
  import opened RustInts
  import opened AsmSymbols
  import opened AsmParser
  import opened AsmCode
  import opened AsmUtils

  // ---------------------------------------------------------------------------
  // First pass

  /** How many instructions are not labels: the ROM size of the program. */
  function NonLabels(ins: seq<Instruction>): nat {
    if |ins| == 0 then 0 else (if ins[0].LabelInstr? then 0 else 1) + NonLabels(ins[1..])
  }

  /**
    `first_pass` from ROM address `count` on: a label is bound to the
    current address, every other instruction moves the `u16` address on
    (panicking past 65535).
   */
  function Pass(ins: seq<Instruction>, count: U16, t: SymbolTable): (r: Result<SymbolTable, Panic>)
    ensures r.Success? <==> count + NonLabels(ins) < 65536
    ensures r.Success? ==> r.value.nextVarAddress == t.nextVarAddress
    decreases |ins|
  {
    if |ins| == 0 then Success(t)
    else match ins[0]
      case LabelInstr(name) => Pass(ins[1..], count, AddLabel(t, name, count))
      case _ => if count + 1 < 65536 then Pass(ins[1..], count + 1, t) else Failure(Overflow("count += 1"))
  }

  function FirstPass(ins: seq<Instruction>, t: SymbolTable): Result<SymbolTable, Panic> {
    Pass(ins, 0, t)
  }

  /** `ins[i]` is the last declaration of the label `name`. */
  predicate LastDeclaration(ins: seq<Instruction>, i: nat, name: string) {
    && i < |ins| && ins[i] == LabelInstr(name)
    && forall j | i < j < |ins| :: ins[j] != LabelInstr(name)
  }

  lemma NonLabelsHead(ins: seq<Instruction>, i: nat)
    requires 0 < i <= |ins|
    ensures NonLabels(ins[..i]) == (if ins[0].LabelInstr? then 0 else 1) + NonLabels(ins[1..][..i - 1])
  {
    assert ins[..i][1..] == ins[1..][..i - 1];
  }

  /** A symbol no label of `ins` declares keeps its binding, or its absence. */
  lemma {:induction false} PassKeeps(ins: seq<Instruction>, count: U16, t: SymbolTable, name: string)
    requires Pass(ins, count, t).Success?
    requires forall j | 0 <= j < |ins| :: ins[j] != LabelInstr(name)
    ensures name in Pass(ins, count, t).value.table <==> name in t.table
    ensures name in t.table ==> Pass(ins, count, t).value.table[name] == t.table[name]
    decreases |ins|
  {
    if |ins| > 0 {
      assert forall j | 0 <= j < |ins[1..]| :: ins[1..][j] == ins[j + 1];
      match ins[0]
      case LabelInstr(l) => PassKeeps(ins[1..], count, AddLabel(t, l, count), name);
      case _ => PassKeeps(ins[1..], count + 1, t, name);
    }
  }

  /**
    A label is bound to the ROM address of the instruction that follows its
    last declaration: the start address plus the non-labels before it.
   */
  lemma {:induction false} PassBindsLabel(ins: seq<Instruction>, count: U16, t: SymbolTable, name: string, i: nat)
    requires Pass(ins, count, t).Success?
    requires LastDeclaration(ins, i, name)
    ensures name in Pass(ins, count, t).value.table
    ensures Pass(ins, count, t).value.table[name] == count + NonLabels(ins[..i])
    decreases |ins|
  {
    assert forall j | 0 <= j < |ins[1..]| :: ins[1..][j] == ins[j + 1];
    if i == 0 {
      PassKeeps(ins[1..], count, AddLabel(t, name, count), name);
    } else {
      NonLabelsHead(ins, i);
      match ins[0]
      case LabelInstr(l) => PassBindsLabel(ins[1..], count, AddLabel(t, l, count), name, i - 1);
      case _ => PassBindsLabel(ins[1..], count + 1, t, name, i - 1);
    }
  }

  // ---------------------------------------------------------------------------
  // Second pass

  /** `format!("0{:015b}", value)` */
  function ALine(value: U16): (line: string)
    ensures AllBits(line) && BitsValue(line) == value
    ensures |line| == 16 <==> value < 32768
  {
    var b := Binary15(value);
    Binary15Spec(value);
    LeadingZeros(1, b);
    assert Zeros(1) + b == "0" + b;
    "0" + b
  }

  /**
    The line of one instruction, with the table after it: labels give no
    line; a symbol operand is looked up (and allocated if new); a numeric
    operand must parse as `u16`; a C-instruction is coded field by field,
    comp first.
   */
  function Encode(ins: Instruction, t: SymbolTable): (r: Result<(SymbolTable, Option<string>), Panic>)
    ensures r.Success? ==> (r.value.1.None? <==> ins.LabelInstr?)
    ensures r.Success? && r.value.1.Some? ==> AllBits(r.value.1.value)
    ensures r.Success? && ins.CInstr? ==> |r.value.1.value| == 16
    ensures !ins.AInstr? || !HasLetter(ins.value) ==> r.Success? ==> r.value.0 == t
    ensures ins.AInstr? && !HasLetter(ins.value) ==> (r.Success? <==> ParseU16(ins.value).Some?)
    ensures ins.AInstr? && !HasLetter(ins.value) && r.Success? ==> r.value.1 == Some(ALine(ParseU16(ins.value).value))
    ensures ins.AInstr? && HasLetter(ins.value) && ins.value in t.table ==>
      r == Success((t, Some(ALine(t.table[ins.value]))))
    ensures ins.AInstr? && HasLetter(ins.value) && ins.value !in t.table ==>
      (r.Success? <==> t.nextVarAddress < 65535)
    ensures var a := t.nextVarAddress;
      ins.AInstr? && HasLetter(ins.value) && ins.value !in t.table && r.Success? ==>
      r.value == (SymbolTable(t.table[ins.value := a], a + 1), Some(ALine(a)))
  {
    match ins
    case LabelInstr(_) => Success((t, None))
    case AInstr(value) =>
      if HasLetter(value) then
        var (t1, address) :- GetAddress(t, value);
        Success((t1, Some(ALine(address))))
      else
        (match ParseU16(value)
         case Some(n) => Success((t, Some(ALine(n))))
         case None => Failure(Unwrap("value.parse::<u16>()")))
    case CInstr(dest, comp, jump) =>
      var c :- CompToBin(comp);
      var d :- DestToBin(dest);
      var j :- JumpToBin(jump);
      Success((t, Some("111" + c + d + j)))
  }

  /** What the second pass does with one instruction: its line, if any, and the table after it. */
  type Encoder = (Instruction, SymbolTable) -> Result<(SymbolTable, Option<string>), Panic>

  /** The loop of the second pass, written for any encoder. */
  function Emit(enc: Encoder, ins: seq<Instruction>, t: SymbolTable): Result<(SymbolTable, seq<string>), Panic>
    decreases |ins|
  {
    if |ins| == 0 then Success((t, []))
    else
      var (t1, line) :- enc(ins[0], t);
      var (t2, rest) :- Emit(enc, ins[1..], t1);
      Success((t2, Lines(line) + rest))
  }

  /** An encoder that gives a line of bits for every instruction but a label. */
  ghost predicate LineEncoder(enc: Encoder) {
    forall i: Instruction, t: SymbolTable :: enc(i, t).Success? ==>
      && (enc(i, t).value.1.None? <==> i.LabelInstr?)
      && (enc(i, t).value.1.Some? ==> AllBits(enc(i, t).value.1.value))
  }

  lemma EncodeIsLineEncoder()
    ensures LineEncoder(Encode)
  {
  }

  lemma {:induction false} EmitLines(enc: Encoder, ins: seq<Instruction>, t: SymbolTable)
    requires LineEncoder(enc)
    ensures Emit(enc, ins, t).Success? ==> |Emit(enc, ins, t).value.1| == NonLabels(ins)
    ensures Emit(enc, ins, t).Success? ==> forall k | 0 <= k < |Emit(enc, ins, t).value.1| :: AllBits(Emit(enc, ins, t).value.1[k])
    decreases |ins|
  {
    if |ins| > 0 && enc(ins[0], t).Success? {
      var (t1, line) := enc(ins[0], t).value;
      EmitLines(enc, ins[1..], t1);
    }
  }

  /** The second pass: one line of bits per A- or C-instruction, in order. */
  function SecondPass(ins: seq<Instruction>, t: SymbolTable): (r: Result<(SymbolTable, seq<string>), Panic>)
    ensures r.Success? ==> |r.value.1| == NonLabels(ins)
    ensures r.Success? ==> forall k | 0 <= k < |r.value.1| :: AllBits(r.value.1[k])
  {
    EncodeIsLineEncoder();
    EmitLines(Encode, ins, t);
    Emit(Encode, ins, t)
  }

  /** The lines `writeln!` emits for one instruction: none for a label. */
  function Lines(line: Option<string>): seq<string> {
    match line case Some(l) => [l] case None => []
  }

  /** `assemble`: a fresh symbol table, the first pass, then the second. */
  function Assemble(ins: seq<Instruction>): Result<seq<string>, Panic> {
    AssembleWith(ins, NewSymbolTable())
  }

  /** Both passes, starting from the table `t`. */
  function AssembleWith(ins: seq<Instruction>, t: SymbolTable): Result<seq<string>, Panic> {
    var t1 :- FirstPass(ins, t);
    var (_, lines) :- SecondPass(ins, t1);
    Success(lines)
  }

  /** The whole program text: parse, then assemble. */
  function AssembleText(source: seq<string>): Result<seq<string>, Panic> {
    Assemble(ParseLines(source))
  }

  // ---------------------------------------------------------------------------
  // Properties

  /** A decimal operand below 2^15 is written as its own value, on sixteen bits. */
  lemma NumericOperand(n: nat, t: SymbolTable)
    requires n < 32768
    ensures Encode(AInstr(Dec(n)), t).Success?
    ensures var (t1, line) := Encode(AInstr(Dec(n)), t).value;
      t1 == t && line.Some? && |line.value| == 16 && BitsValue(line.value) == n
  {
    DecValue(n);
    NumeralsHaveNoLetter(Dec(n));
    ParseU16Dec(n);
  }

  /**
    A Hack C-instruction is coded into sixteen bits whose comp field
    computes what the mnemonic means, whose dest field names its registers,
    and whose jump field jumps exactly when the mnemonic says.
   */
  lemma CInstructionMeaning(dst: Dest, c: Comp, j: Jump, t: SymbolTable)
    ensures Encode(HackC(dst, c, j), t).Success?
    ensures var line := Encode(HackC(dst, c, j), t).value.1.value;
      && |line| == 16 && line[..3] == "111"
      && (forall a: Word, d: Word, m: Word :: RunComp(line[3..10], a, d, m) == Eval(c, a, d, m))
      && DestOfBits(line[10..13]) == dst
      && (forall v: Word :: JumpsOn(line[13..], v) <==> Taken(j, v))
  {
    CompField(c);
    DestMeaning(dst);
    JumpField(j);
    var cb := CompToBin(CompText(c)).value;
    var db := DestToBin(DestText(dst)).value;
    var jb := JumpToBin(JumpText(j)).value;
    var line := "111" + cb + db + jb;
    assert line[3..10] == cb && line[10..13] == db && line[13..] == jb;
  }

  /** The comp bits of a mnemonic compute, on every machine state, what the mnemonic means. */
  lemma CompField(c: Comp)
    ensures CompToBin(CompText(c)).Success?
    ensures forall a: Word, d: Word, m: Word :: RunComp(CompToBin(CompText(c)).value, a, d, m) == Eval(c, a, d, m)
  {
    CompTable(c, 0, 0, 0);
    forall a: Word, d: Word, m: Word ensures RunComp(CompToBin(CompText(c)).value, a, d, m) == Eval(c, a, d, m) {
      CompTable(c, a, d, m);
    }
  }

  /** The jump bits of a mnemonic jump on exactly the values the mnemonic names. */
  lemma JumpField(j: Jump)
    ensures JumpToBin(JumpText(j)).Success?
    ensures forall v: Word :: JumpsOn(JumpToBin(JumpText(j)).value, v) <==> Taken(j, v)
  {
    JumpMeaning(j, 0);
    forall v: Word ensures JumpsOn(JumpToBin(JumpText(j)).value, v) <==> Taken(j, v) {
      JumpMeaning(j, v);
    }
  }

  /** An unknown comp mnemonic stops the assembler before dest and jump are looked at. */
  lemma UnknownCompPanics(dest: Option<string>, comp: string, jump: Option<string>, t: SymbolTable)
    requires forall c: Comp :: CompText(c) != comp
    ensures Encode(CInstr(dest, comp, jump), t) == Failure(Explicit("Instruction de calcul inconnue: " + comp))
  {
    CompDomain(comp);
  }

  /**
    After the first pass over a whole program, every label names the ROM
    address of the instruction after its last declaration, and variables
    are still allocated from 16.
   */
  lemma LabelAddresses(ins: seq<Instruction>, name: string, i: nat)
    requires FirstPass(ins, NewSymbolTable()).Success?
    requires LastDeclaration(ins, i, name)
    ensures name in FirstPass(ins, NewSymbolTable()).value.table
    ensures FirstPass(ins, NewSymbolTable()).value.table[name] == NonLabels(ins[..i])
    ensures FirstPass(ins, NewSymbolTable()).value.nextVarAddress == 16
  {
    PassBindsLabel(ins, 0, NewSymbolTable(), name, i);
  }

  /**
    A symbolic operand naming a label of the program, looked up in the table
    the first pass built, becomes the ROM address of the instruction after
    the label's last declaration, and the table is left as it was.
   */
  lemma LabelOperand(ins: seq<Instruction>, name: string, i: nat)
    requires FirstPass(ins, NewSymbolTable()).Success?
    requires LastDeclaration(ins, i, name)
    requires HasLetter(name)
    ensures var t := FirstPass(ins, NewSymbolTable()).value;
      && name in t.table && t.table[name] == NonLabels(ins[..i])
      && Encode(AInstr(name), t) == Success((t, Some(ALine(t.table[name]))))
  {
    LabelAddresses(ins, name, i);
  }

  /**
    A symbolic operand that no label declares and that is not predefined is
    the first variable: it is given RAM address 16 and the table gains it.
   */
  lemma FirstVariable(ins: seq<Instruction>, name: string)
    requires FirstPass(ins, NewSymbolTable()).Success?
    requires forall j | 0 <= j < |ins| :: ins[j] != LabelInstr(name)
    requires name !in NewSymbolTable().table
    requires HasLetter(name)
    ensures var t := FirstPass(ins, NewSymbolTable()).value;
      Encode(AInstr(name), t) == Success((SymbolTable(t.table[name := 16], 17), Some(ALine(16))))
  {
    PassKeeps(ins, 0, NewSymbolTable(), name);
  }

  /** The second pass over two halves is the second pass over each in turn. */
  lemma SecondPassAppend(xs: seq<Instruction>, ys: seq<Instruction>, t: SymbolTable)
    requires SecondPass(xs, t).Success?
    ensures SecondPass(xs + ys, t).Success? <==> SecondPass(ys, SecondPass(xs, t).value.0).Success?
    ensures SecondPass(xs + ys, t).Success? ==>
      var (t1, lines) := SecondPass(xs, t).value;
      SecondPass(xs + ys, t).value == (SecondPass(ys, t1).value.0, lines + SecondPass(ys, t1).value.1)
  {
    EmitAppend(Encode, xs, ys, t);
  }

  lemma {:induction false} EmitAppend(enc: Encoder, xs: seq<Instruction>, ys: seq<Instruction>, t: SymbolTable)
    requires Emit(enc, xs, t).Success?
    ensures Emit(enc, xs + ys, t).Success? <==> Emit(enc, ys, Emit(enc, xs, t).value.0).Success?
    ensures Emit(enc, xs + ys, t).Success? ==>
      var (t1, lines) := Emit(enc, xs, t).value;
      Emit(enc, xs + ys, t).value == (Emit(enc, ys, t1).value.0, lines + Emit(enc, ys, t1).value.1)
    decreases |xs|
  {
    if |xs| == 0 {
      assert xs + ys == ys;
      if Emit(enc, ys, t).Success? {
        assert [] + Emit(enc, ys, t).value.1 == Emit(enc, ys, t).value.1;
      }
    } else {
      var zs := xs + ys;
      assert zs[0] == xs[0] && zs[1..] == xs[1..] + ys;
      var (t1, line) := enc(xs[0], t).value;
      EmitAppend(enc, xs[1..], ys, t1);
      var (t2, rest) := Emit(enc, xs[1..], t1).value;
      if Emit(enc, ys, t2).Success? {
        var more := Emit(enc, ys, t2).value.1;
        assert Lines(line) + (rest + more) == (Lines(line) + rest) + more;
      }
    }
  }

  /** A program of one instruction that is not a label assembles to that instruction's line. */
  lemma AssembleSingle(ins: Instruction, t: SymbolTable)
    requires !ins.LabelInstr? && Encode(ins, t).Success?
    ensures AssembleWith([ins], t) == Success([Encode(ins, t).value.1.value])
  {
    assert [ins][0] == ins && [ins][1..] == [];
    assert Pass([ins], 0, t) == Pass([], 1, t);
    var (t1, line) := Encode(ins, t).value;
    assert Emit(Encode, [ins], t) == Success((t1, Lines(line) + []));
    assert Lines(line) + [] == [line.value];
  }

  /** A program of one `@n` line assembles to the sixteen-bit rendering of `n`. */
  lemma AssembleNumber(n: nat)
    requires n < 32768
    ensures AssembleText(["@" + Dec(n)]).Success?
    ensures var lines := AssembleText(["@" + Dec(n)]).value;
      |lines| == 1 && |lines[0]| == 16 && BitsValue(lines[0]) == n
  {
    var ins := AInstr(Dec(n));
    NumberLine(n);
    NumericOperand(n, NewSymbolTable());
    AssembleSingle(ins, NewSymbolTable());
  }

  /** The line `@n` parses into the A-instruction of `n`. */
  lemma NumberLine(n: nat)
    ensures ParseLines(["@" + Dec(n)]) == [AInstr(Dec(n))]
  {
    var ins := AInstr(Dec(n));
    assert SymbolText(Dec(n)) by {
      DecValue(n);
      forall k | 0 <= k < |Dec(n)| ensures IsSymbolChar(Dec(n)[k]) { assert IsDigit(Dec(n)[k]); }
    }
    ParsePrint(ins);
    assert ["@" + Dec(n)][1..] == [];
    assert Kept(Some(ins)) == [ins];
  }
}
