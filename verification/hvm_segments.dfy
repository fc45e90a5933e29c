/**
  `write_push_pop` of `hvm/src/code.rs` and its helpers: the Hack fragments
  for `push segment index` and `pop segment index`, and what they do to the
  stack and to the addressed segment cell.

  Segment cells live where this translator puts them: local, argument,
  this and that at their pointer register's value plus the index; temp at
  5 + index; static at 16 + index (the `file.index` symbol the fragment
  mentions is overwritten by the next line); pointer 0 at THIS and every
  other pointer index at THAT. Sums that overflow a `u16` in the source
  panic.
 */
module HvmSegments {
  import opened Wrappers
  import opened Text
  import opened Hack
  import opened HvmAsm
  import opened RustInts
  import opened HvmCommands

  /** The first RAM address of the static segment. */
  const STATIC_COUNT: nat := 16

  /** The pointer register of the four pointer-based segments. */
  function Register(segment: Segment): string
    requires segment in {Argument, Local, That, This}
  {
    match segment
    case Argument => "ARG"
    case Local => "LCL"
    case That => "THAT"
    case This => "THIS"
  }

  /** The RAM address of the pointer register `Register(segment)` names. */
  function RegisterAddress(segment: Segment): Word
    requires segment in {Argument, Local, That, This}
  {
    match segment
    case Argument => ARG
    case Local => LCL
    case That => THAT
    case This => THIS
  }

  /** `incremente_m`: with A at a pointer register, points A at the pointer plus `index`. */
  function IncrementM(index: U16): seq<Instr> {
    if index == 0 then [C(ToA, M, NoJump)]
    else [C(ToA, MPlusOne, NoJump)] + Repeat([C(ToA, APlusOne, NoJump)], index - 1)
  }

  /** The symbol the static fragments mention: `file.index`. */
  function StaticSymbol(file: string, index: U16): string {
    file + "." + Dec(index)
  }

  /** `write_push` for a pointer-based segment (`register` names its pointer) or for temp (`register` is "TEMP"). */
  function WritePush(index: U16, register: string): Result<seq<Instr>, Panic> {
    if register == "TEMP" then
      if index + 5 >= 65536 then Failure(Overflow("index + 5"))
      else Success([AConst(index), C(ToD, A, NoJump), AConst(index + 5), C(ToD, M, NoJump)] + PUSH_X)
    else Success([AConst(index), C(ToD, A, NoJump), ASym(register), C(ToA, DPlusM, NoJump), C(ToD, M, NoJump)] + PUSH_X)
  }

  function WritePushStatic(file: string, index: U16): Result<seq<Instr>, Panic> {
    if STATIC_COUNT + index >= 65536 then Failure(Overflow("STATIC_COUNT + index"))
    else Success([AConst(index), C(ToD, A, NoJump), ASym(StaticSymbol(file, index)), AConst(STATIC_COUNT + index), C(ToD, M, NoJump)] + PUSH_X)
  }

  function WritePushConstant(index: U16): seq<Instr> {
    [AConst(index), C(ToD, A, NoJump)] + PUSH_X
  }

  function WritePushPointer(index: U16): seq<Instr> {
    [ASym(if index == 0 then "THIS" else "THAT"), C(ToD, M, NoJump)] + PUSH_X
  }

  /** `write_pop` for a pointer-based segment or for temp. */
  function WritePop(index: U16, register: string): Result<seq<Instr>, Panic> {
    if register == "TEMP" then
      if index + 5 >= 65536 then Failure(Overflow("index + 5"))
      else Success(POP_Y + [AConst(index + 5), C(ToM, D, NoJump)])
    else Success(POP_Y + ([ASym(register)] + IncrementM(index) + [C(ToM, D, NoJump)]))
  }

  function WritePopStatic(file: string, index: U16): Result<seq<Instr>, Panic> {
    if STATIC_COUNT + index >= 65536 then Failure(Overflow("STATIC_COUNT + index"))
    else Success(POP_Y + [ASym(StaticSymbol(file, index)), AConst(STATIC_COUNT + index), C(ToM, D, NoJump)])
  }

  function WritePopPointer(index: U16): seq<Instr> {
    POP_Y + [ASym(if index == 0 then "THIS" else "THAT"), C(ToM, D, NoJump)]
  }

  /**
    The fragment for a push or pop in the file named `file`. Popping into
    constant, and any command that is not a push or pop, panics.
   */
  function WritePushPop(command: VmCommand, file: string): (r: Result<seq<Instr>, Panic>)
    ensures r.Failure? <==>
      || !(command.Push? || command.Pop?)
      || command == Pop(Constant, command.index)
      || (command.segment == Temp && command.index + 5 >= 65536)
      || (command.segment == Static && STATIC_COUNT + command.index >= 65536)
    ensures command.Pop? && command.segment == Constant ==> r == Failure(Explicit("Segment unknow!"))
  {
    match command
    case Push(segment, index) =>
      (match segment
       case Argument => WritePush(index, "ARG")
       case Local => WritePush(index, "LCL")
       case Temp => WritePush(index, "TEMP")
       case That => WritePush(index, "THAT")
       case This => WritePush(index, "THIS")
       case Static => WritePushStatic(file, index)
       case Constant => Success(WritePushConstant(index))
       case Pointer => Success(WritePushPointer(index)))
    case Pop(segment, index) =>
      (match segment
       case Argument => WritePop(index, "ARG")
       case Local => WritePop(index, "LCL")
       case Temp => WritePop(index, "TEMP")
       case That => WritePop(index, "THAT")
       case This => WritePop(index, "THIS")
       case Static => WritePopStatic(file, index)
       case Pointer => Success(WritePopPointer(index))
       case Constant => Failure(Explicit("Segment unknow!")))
    case _ => Failure(Explicit("Unknow push/pop command"))
  }

  /**
    When the fragment of a push or pop is Hack machine code: every push but
    pointer starts with `@index`, and temp and static also address
    `@index+5` and `@16+index`, each of which must fit the 15 value bits of
    an A-instruction.
   */
  predicate OperandsFit(command: VmCommand)
    requires command.Push? || command.Pop?
  {
    match command.segment
    case Pointer => true
    case Temp => command.index + 5 < A_LIMIT
    case Static => STATIC_COUNT + command.index < A_LIMIT
    case _ => command.Pop? || command.index < A_LIMIT
  }

  lemma StackFragmentsEncodable()
    ensures Encodable(PUSH_X) && Encodable(POP_Y)
  {
    assert PUSH_X == [ASym("SP"), C(ToA, M, NoJump), C(ToM, D, NoJump), ASym("SP"), C(ToM, MPlusOne, NoJump)];
    assert POP_Y == [ASym("SP"), C(ToM, MMinusOne, NoJump), C(ToA, M, NoJump), C(ToD, M, NoJump)];
  }

  /**
    The translator emits a fragment for every index up to 65535, but it is
    Hack machine code exactly when the operands fit; otherwise an `@n` of it
    has no 16-bit encoding.
   */
  lemma HackOperands(command: VmCommand, file: string)
    requires WritePushPop(command, file).Success?
    ensures command.Push? || command.Pop?
    ensures Encodable(WritePushPop(command, file).value) <==> OperandsFit(command)
  {
    if command.Push? {
      PushOperands(command.segment, command.index, file);
    } else {
      PopOperands(command.segment, command.index, file);
    }
  }

  lemma PushOperands(segment: Segment, index: U16, file: string)
    requires WritePushPop(Push(segment, index), file).Success?
    ensures Encodable(WritePushPop(Push(segment, index), file).value) <==> OperandsFit(Push(segment, index))
  {
    StackFragmentsEncodable();
    var toD, any := C(ToD, M, NoJump), Decl("");
    if segment == Pointer {
      var load := [ASym(if index == 0 then "THIS" else "THAT"), toD];
      EncodableFive(load[0], toD, any, any, any);
      EncodableAppend(load, PUSH_X);
    } else if segment == Constant {
      EncodableFive(AConst(index), C(ToD, A, NoJump), any, any, any);
      EncodableAppend([AConst(index), C(ToD, A, NoJump)], PUSH_X);
    } else if segment == Temp {
      EncodableFive(AConst(index), C(ToD, A, NoJump), AConst(index + 5), toD, any);
      EncodableAppend([AConst(index), C(ToD, A, NoJump), AConst(index + 5), toD], PUSH_X);
    } else if segment == Static {
      var load := [AConst(index), C(ToD, A, NoJump), ASym(StaticSymbol(file, index)), AConst(STATIC_COUNT + index), toD];
      EncodableFive(load[0], load[1], load[2], load[3], toD);
      EncodableAppend(load, PUSH_X);
    } else {
      var load := [AConst(index), C(ToD, A, NoJump), ASym(Register(segment)), C(ToA, DPlusM, NoJump), toD];
      EncodableFive(load[0], load[1], load[2], load[3], toD);
      EncodableAppend(load, PUSH_X);
    }
  }

  lemma PopOperands(segment: Segment, index: U16, file: string)
    requires WritePushPop(Pop(segment, index), file).Success?
    ensures Encodable(WritePushPop(Pop(segment, index), file).value) <==> OperandsFit(Pop(segment, index))
  {
    StackFragmentsEncodable();
    var toM, any := C(ToM, D, NoJump), Decl("");
    if segment == Pointer {
      var store := [ASym(if index == 0 then "THIS" else "THAT"), toM];
      EncodableFive(store[0], toM, any, any, any);
      EncodableAppend(POP_Y, store);
    } else if segment == Temp {
      EncodableFive(AConst(index + 5), toM, any, any, any);
      EncodableAppend(POP_Y, [AConst(index + 5), toM]);
    } else if segment == Static {
      var store := [ASym(StaticSymbol(file, index)), AConst(STATIC_COUNT + index), toM];
      EncodableFive(store[0], store[1], toM, any, any);
      EncodableAppend(POP_Y, store);
    } else {
      var reg := Register(segment);
      EncodableFive(ASym(reg), C(ToA, M, NoJump), C(ToA, MPlusOne, NoJump), C(ToA, APlusOne, NoJump), toM);
      RepeatEncodable([C(ToA, APlusOne, NoJump)], if index == 0 then 0 else index - 1);
      EncodableAppend([C(ToA, MPlusOne, NoJump)], Repeat([C(ToA, APlusOne, NoJump)], if index == 0 then 0 else index - 1));
      EncodableAppend([ASym(reg)], IncrementM(index));
      EncodableAppend([ASym(reg)] + IncrementM(index), [toM]);
      EncodableAppend(POP_Y, [ASym(reg)] + IncrementM(index) + [toM]);
    }
  }

  /** `push constant 32768` is translated, but into an `@32768` no A-instruction can hold. */
  lemma WideConstant(file: string)
    ensures WritePushPop(Push(Constant, 32768), file).Success?
    ensures !Encodable(WritePushPop(Push(Constant, 32768), file).value)
  {
    HackOperands(Push(Constant, 32768), file);
  }

  // ---------------------------------------------------------------------------
  // Where each segment lives

  /**
    The RAM address of `segment[index]` in state `s`, under this
    translator's mapping; constant is not a place in memory.
   */
  function Address(segment: Segment, index: U16, s: State): Option<Word> {
    match segment
    case Constant => None
    case Temp => if index + 5 < 65536 then Some(index + 5) else None
    case Static => if STATIC_COUNT + index < 65536 then Some(STATIC_COUNT + index) else None
    case Pointer => Some(if index == 0 then THIS else THAT)
    case _ => Some(Wrap(index + Mem(s, RegisterAddress(segment))))
  }

  /** The value `push segment index` places on the stack. */
  function Value(segment: Segment, index: U16, s: State): Word {
    if segment == Constant then index
    else match Address(segment, index, s)
      case Some(addr) => Mem(s, addr)
      case None => 0
  }

  /** Every translatable push or pop refers to a place (or, for push constant, to a literal). */
  lemma AddressDefined(command: VmCommand, file: string, s: State)
    requires (command.Push? || command.Pop?) && WritePushPop(command, file).Success?
    ensures command.segment != Constant <==> Address(command.segment, command.index, s).Some?
  {
  }

  // ---------------------------------------------------------------------------
  // Running the fragments

  /** `@index D=A @reg A=D+M D=M` loads the cell `index` past the pointer held in `reg`. */
  lemma LoadViaPointer(index: U16, reg: string, s: State, sym: Symbols)
    ensures var addr := Wrap(index + Mem(s, sym(reg)));
      Exec([AConst(index), C(ToD, A, NoJump)] + [ASym(reg), C(ToA, DPlusM, NoJump), C(ToD, M, NoJump)], s, sym)
        == Fell(State(addr, Mem(s, addr), s.ram))
  {
    var s2 := State(index, index, s.ram);
    var addr := Wrap(index + Mem(s, sym(reg)));
    ExecTwo(AConst(index), C(ToD, A, NoJump), s, s.(a := index), sym);
    ExecSeq([AConst(index), C(ToD, A, NoJump)], [ASym(reg), C(ToA, DPlusM, NoJump), C(ToD, M, NoJump)], s, s2, sym);
    ExecThree(ASym(reg), C(ToA, DPlusM, NoJump), C(ToD, M, NoJump), s2, s2.(a := sym(reg)), State(addr, index, s.ram), sym);
  }

  /** `@index D=A @k [@n] D=M` loads the cell at the fixed address `n` (the middle symbol is overwritten). */
  lemma LoadFixed(index: U16, mid: seq<Instr>, n: Word, s: State, sym: Symbols)
    requires |mid| <= 1 && (|mid| == 1 ==> mid[0].ASym?)
    ensures Exec([AConst(index), C(ToD, A, NoJump)] + (mid + [AConst(n), C(ToD, M, NoJump)]), s, sym)
      == Fell(State(n, Mem(s, n), s.ram))
  {
    var s2 := State(index, index, s.ram);
    var tail := mid + [AConst(n), C(ToD, M, NoJump)];
    ExecTwo(AConst(index), C(ToD, A, NoJump), s, s.(a := index), sym);
    ExecSeq([AConst(index), C(ToD, A, NoJump)], tail, s, s2, sym);
    if |mid| == 0 {
      assert tail == [AConst(n), C(ToD, M, NoJump)];
      ExecTwo(AConst(n), C(ToD, M, NoJump), s2, s2.(a := n), sym);
    } else {
      assert tail == [mid[0], AConst(n), C(ToD, M, NoJump)];
      ExecThree(mid[0], AConst(n), C(ToD, M, NoJump), s2, s2.(a := sym(mid[0].symbol)), s2.(a := n), sym);
    }
  }

  lemma LoadPointer(index: U16, s: State, sym: Symbols)
    requires StdSymbols(sym)
    ensures var reg := if index == 0 then THIS else THAT;
      Exec([ASym(if index == 0 then "THIS" else "THAT"), C(ToD, M, NoJump)], s, sym) == Fell(State(reg, Mem(s, reg), s.ram))
  {
    var reg := if index == 0 then THIS else THAT;
    ExecTwo(ASym(if index == 0 then "THIS" else "THAT"), C(ToD, M, NoJump), s, s.(a := reg), sym);
  }

  /** The loading part of a push fragment: everything before `PUSH_X`. */
  function PushLoad(segment: Segment, index: U16, file: string): seq<Instr> {
    match segment
    case Constant => [AConst(index), C(ToD, A, NoJump)]
    case Pointer => [ASym(if index == 0 then "THIS" else "THAT"), C(ToD, M, NoJump)]
    case Temp => [AConst(index), C(ToD, A, NoJump)] + ([] + [AConst((index + 5) % Modulus), C(ToD, M, NoJump)])
    case Static =>
      [AConst(index), C(ToD, A, NoJump)] + ([ASym(StaticSymbol(file, index))] + [AConst((STATIC_COUNT + index) % Modulus), C(ToD, M, NoJump)])
    case _ => [AConst(index), C(ToD, A, NoJump)] + [ASym(Register(segment)), C(ToA, DPlusM, NoJump), C(ToD, M, NoJump)]
  }

  /** A translatable push is its loading part followed by `PUSH_X`. */
  lemma PushShape(segment: Segment, index: U16, file: string)
    requires WritePushPop(Push(segment, index), file).Success?
    ensures WritePushPop(Push(segment, index), file).value == PushLoad(segment, index, file) + PUSH_X
  {
    if segment == Temp {
      assert [] + [AConst((index + 5) % Modulus), C(ToD, M, NoJump)] == [AConst(index + 5), C(ToD, M, NoJump)];
    } else if segment == Static {
      assert [AConst(index), C(ToD, A, NoJump)] + ([ASym(StaticSymbol(file, index))] + [AConst((STATIC_COUNT + index) % Modulus), C(ToD, M, NoJump)])
        == [AConst(index), C(ToD, A, NoJump), ASym(StaticSymbol(file, index)), AConst(STATIC_COUNT + index), C(ToD, M, NoJump)];
    }
  }

  /** The address sums of temp and static fit in a `u16`. */
  predicate NoOverflow(segment: Segment, index: U16) {
    && (segment == Temp ==> index + 5 < 65536)
    && (segment == Static ==> STATIC_COUNT + index < 65536)
  }

  lemma PushLoadDirect(segment: Segment, index: U16, file: string, s: State, sym: Symbols)
    requires segment in {Constant, Pointer, Temp, Static}
    requires NoOverflow(segment, index) && StdSymbols(sym)
    ensures var r := Exec(PushLoad(segment, index, file), s, sym);
      r.Fell? && r.s.d == Value(segment, index, s) && r.s.ram == s.ram
  {
    var load := PushLoad(segment, index, file);
    match segment
    case Constant =>
      ExecTwo(AConst(index), C(ToD, A, NoJump), s, s.(a := index), sym);
    case Pointer =>
      LoadPointer(index, s, sym);
    case Temp =>
      assert load == [AConst(index), C(ToD, A, NoJump)] + ([] + [AConst(index + 5), C(ToD, M, NoJump)]);
      LoadFixed(index, [], index + 5, s, sym);
    case Static =>
      assert load == [AConst(index), C(ToD, A, NoJump)] + ([ASym(StaticSymbol(file, index))] + [AConst(STATIC_COUNT + index), C(ToD, M, NoJump)]);
      LoadFixed(index, [ASym(StaticSymbol(file, index))], STATIC_COUNT + index, s, sym);
  }

  /** The loading part leaves D holding the pushed value and touches no memory. */
  lemma PushLoadEffect(segment: Segment, index: U16, file: string, s: State, sym: Symbols)
    requires NoOverflow(segment, index) && StdSymbols(sym)
    ensures var r := Exec(PushLoad(segment, index, file), s, sym);
      r.Fell? && r.s.d == Value(segment, index, s) && r.s.ram == s.ram
  {
    if segment in {Constant, Pointer, Temp, Static} {
      PushLoadDirect(segment, index, file, s, sym);
    } else {
      LoadViaPointer(index, Register(segment), s, sym);
    }
  }

  /**
    `push segment index` places the segment's value (the index itself for
    constant) on top of the stack and increments SP; no other cell changes.
   */
  lemma PushEffect(segment: Segment, index: U16, file: string, s: State, sym: Symbols)
    requires WritePushPop(Push(segment, index), file).Success?
    requires StdSymbols(sym) && Pushable(s)
    ensures var v := Value(segment, index, s); var sp := Sp(s);
      Exec(WritePushPop(Push(segment, index), file).value, s, sym) == Fell(State(SP, v, s.ram[sp := v][SP := sp + 1]))
  {
    var load := PushLoad(segment, index, file);
    PushShape(segment, index, file);
    PushLoadEffect(segment, index, file, s, sym);
    var s1 := Exec(load, s, sym).s;
    ExecSeq(load, PUSH_X, s, s1, sym);
    PushXEffect(s1, sym);
  }

  /** `incremente_m(index)` moves A from a pointer register to the cell `index` past the pointer. */
  lemma IncrementMEffect(index: U16, s: State, sym: Symbols)
    ensures Exec(IncrementM(index), s, sym) == Fell(s.(a := (Mem(s, s.a) + index) % Modulus))
  {
    if index == 0 {
      ExecOne(C(ToA, M, NoJump), s, sym);
    } else {
      var first := C(ToA, MPlusOne, NoJump);
      var s1 := s.(a := Wrap(Mem(s, s.a) + 1));
      ExecOne(first, s, sym);
      ExecSeq([first], Repeat([C(ToA, APlusOne, NoJump)], index - 1), s, s1, sym);
      RepeatIncA(index - 1, s1, sym);
      WrapIsModulo(Mem(s, s.a) + 1);
    }
  }

  /** The storing part of a pop fragment: everything after `POP_Y`. */
  function PopStore(segment: Segment, index: U16, file: string): seq<Instr> {
    match segment
    case Pointer => [ASym(if index == 0 then "THIS" else "THAT"), C(ToM, D, NoJump)]
    case Temp => [AConst((index + 5) % Modulus), C(ToM, D, NoJump)]
    case Static => [ASym(StaticSymbol(file, index)), AConst((STATIC_COUNT + index) % Modulus), C(ToM, D, NoJump)]
    case Constant => []
    case _ => [ASym(Register(segment))] + IncrementM(index) + [C(ToM, D, NoJump)]
  }

  /** A translatable pop is `POP_Y` followed by its storing part. */
  lemma PopShape(segment: Segment, index: U16, file: string)
    requires WritePushPop(Pop(segment, index), file).Success?
    ensures WritePushPop(Pop(segment, index), file).value == POP_Y + PopStore(segment, index, file)
  {
  }

  /** `@reg` then `incremente_m(index)` then `M=D` stores D in the cell `index` past the pointer held in `reg`. */
  lemma StoreViaPointer(index: U16, reg: string, h: State, sym: Symbols)
    ensures var addr := (Mem(h, sym(reg)) + index) % Modulus;
      Exec([ASym(reg)] + (IncrementM(index) + [C(ToM, D, NoJump)]), h, sym) == Fell(State(addr, h.d, h.ram[addr := h.d]))
  {
    var h1 := h.(a := sym(reg));
    var addr := (Mem(h, sym(reg)) + index) % Modulus;
    ExecOne(ASym(reg), h, sym);
    ExecSeq([ASym(reg)], IncrementM(index) + [C(ToM, D, NoJump)], h, h1, sym);
    IncrementMEffect(index, h1, sym);
    ExecSeq(IncrementM(index), [C(ToM, D, NoJump)], h1, h1.(a := addr), sym);
    ExecOne(C(ToM, D, NoJump), h1.(a := addr), sym);
  }

  lemma PopStoreViaPointer(segment: Segment, index: U16, h: State, sym: Symbols)
    requires segment in {Argument, Local, That, This} && StdSymbols(sym)
    ensures var addr := Address(segment, index, h).value;
      Exec([ASym(Register(segment))] + IncrementM(index) + [C(ToM, D, NoJump)], h, sym)
        == Fell(State(addr, h.d, h.ram[addr := h.d]))
  {
    var reg := Register(segment);
    assert [ASym(reg)] + IncrementM(index) + [C(ToM, D, NoJump)] == [ASym(reg)] + (IncrementM(index) + [C(ToM, D, NoJump)]);
    StoreViaPointer(index, reg, h, sym);
    WrapIsModulo(index + Mem(h, RegisterAddress(segment)));
  }

  lemma PopStoreDirect(segment: Segment, index: U16, file: string, h: State, sym: Symbols)
    requires segment in {Pointer, Temp, Static} && NoOverflow(segment, index) && StdSymbols(sym)
    ensures var addr := Address(segment, index, h).value;
      Exec(PopStore(segment, index, file), h, sym) == Fell(State(addr, h.d, h.ram[addr := h.d]))
  {
    var addr := Address(segment, index, h).value;
    match segment
    case Pointer =>
      ExecTwo(ASym(if index == 0 then "THIS" else "THAT"), C(ToM, D, NoJump), h, h.(a := addr), sym);
    case Temp =>
      ExecTwo(AConst(index + 5), C(ToM, D, NoJump), h, h.(a := addr), sym);
    case Static =>
      var name := ASym(StaticSymbol(file, index));
      ExecThree(name, AConst(STATIC_COUNT + index), C(ToM, D, NoJump), h, h.(a := sym(name.symbol)), h.(a := addr), sym);
  }

  /** The storing part writes D to the addressed cell and changes nothing else. */
  lemma PopStoreEffect(segment: Segment, index: U16, file: string, h: State, sym: Symbols)
    requires segment != Constant && NoOverflow(segment, index) && StdSymbols(sym)
    ensures var addr := Address(segment, index, h).value;
      Exec(PopStore(segment, index, file), h, sym) == Fell(State(addr, h.d, h.ram[addr := h.d]))
  {
    if segment in {Pointer, Temp, Static} {
      PopStoreDirect(segment, index, file, h, sym);
    } else {
      PopStoreViaPointer(segment, index, h, sym);
    }
  }

  /** SP is none of the pointer registers, so popping does not move the segment. */
  lemma AddressAfterPop(segment: Segment, index: U16, s: State, sp: Word)
    ensures Address(segment, index, s.(ram := s.ram[SP := sp])) == Address(segment, index, s)
  {
  }

  /**
    `pop segment index` removes the top word y, decrementing SP, and writes
    y to the segment's cell; no other cell changes.
   */
  lemma PopEffect(segment: Segment, index: U16, file: string, s: State, sym: Symbols)
    requires WritePushPop(Pop(segment, index), file).Success?
    requires StdSymbols(sym) && StackDepth(s, 1)
    ensures var sp := Sp(s); var y := Mem(s, sp - 1);
      var addr := Address(segment, index, s).value;
      Exec(WritePushPop(Pop(segment, index), file).value, s, sym) == Fell(State(addr, y, s.ram[SP := sp - 1][addr := y]))
  {
    var sp := Sp(s);
    var h := State(sp - 1, Mem(s, sp - 1), s.ram[SP := sp - 1]);
    PopShape(segment, index, file);
    PopYEffect(s, sym);
    ExecSeq(POP_Y, PopStore(segment, index, file), s, h, sym);
    AddressAfterPop(segment, index, State(sp - 1, Mem(s, sp - 1), s.ram), sp - 1);
    PopStoreEffect(segment, index, file, h, sym);
  }

  /** Pushing above the pointer registers leaves every segment where it was. */
  lemma AddressAfterPush(segment: Segment, index: U16, s: State, t: State, sp: Word, v: Word, sp1: Word)
    requires THAT < sp && t.ram == s.ram[sp := v][SP := sp1]
    ensures Address(segment, index, t) == Address(segment, index, s)
  {
  }

  lemma PushThenPopRuns(segment1: Segment, index1: U16, segment2: Segment, index2: U16, file: string,
                        push: seq<Instr>, pop: seq<Instr>, s: State, sym: Symbols)
    requires WritePushPop(Push(segment1, index1), file) == Success(push)
    requires WritePushPop(Pop(segment2, index2), file) == Success(pop)
    requires StdSymbols(sym) && Pushable(s) && THAT < Sp(s)
    ensures var v := Value(segment1, index1, s); var addr := Address(segment2, index2, s).value; var sp := Sp(s);
      Exec(push + pop, s, sym) == Fell(State(addr, v, s.ram[sp := v][SP := sp + 1][SP := sp][addr := v]))
  {
    var sp := Sp(s);
    var v := Value(segment1, index1, s);
    var s1 := State(SP, v, s.ram[sp := v][SP := sp + 1]);
    PushEffect(segment1, index1, file, s, sym);
    AddressAfterPush(segment2, index2, s, s1, sp, v, sp + 1);
    PopEffect(segment2, index2, file, s1, sym);
    ExecSeq(push, pop, s, s1, sym);
  }

  /**
    `push segment1 index1` followed by `pop segment2 index2` copies the first
    place's value into the second and restores SP; besides the target cell
    only the vacated slot above the stack differs.
   */
  lemma PushThenPop(segment1: Segment, index1: U16, segment2: Segment, index2: U16, file: string, s: State, sym: Symbols)
    requires WritePushPop(Push(segment1, index1), file).Success?
    requires WritePushPop(Pop(segment2, index2), file).Success?
    requires StdSymbols(sym) && Pushable(s) && THAT < Sp(s)
    requires Address(segment2, index2, s).value != SP
    ensures var code := WritePushPop(Push(segment1, index1), file).value + WritePushPop(Pop(segment2, index2), file).value;
      var v := Value(segment1, index1, s); var addr := Address(segment2, index2, s).value;
      var r := Exec(code, s, sym);
      && r.Fell? && Sp(r.s) == Sp(s) && Mem(r.s, addr) == v
      && forall a: Word | a != addr && a != Sp(s) :: Mem(r.s, a) == Mem(s, a)
  {
    PushThenPopRuns(segment1, index1, segment2, index2, file,
                    WritePushPop(Push(segment1, index1), file).value, WritePushPop(Pop(segment2, index2), file).value, s, sym);
  }
}
